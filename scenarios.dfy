/** Clients that use the operations only through their contracts, showing
    that the contracts determine the outcomes of a few concrete call
    sequences. */
module Scenarios {
  import opened Outcomes
  import opened DeviceMath
  import opened Vector32
  import opened Vector32Extra
  import opened Mapper32

  /** `[1, 2, 3, 4]`, scaled by 2, shifted by 1, sums to 24. */
  method ScaleShiftSum() {
    var v := new Vector(4);
    var st := v.SetData([1.0, 2.0, 3.0, 4.0]);
    v.Scale(2.0);
    assert v.Contents() == [2.0, 4.0, 6.0, 8.0];
    v.AddScaler(1.0);
    assert v.Contents() == [3.0, 5.0, 7.0, 9.0];
    var s := Sum(v);
    assert SumOf([3.0]) == 3.0 by { assert [3.0][..0] == []; }
    assert SumOf([3.0, 5.0]) == 8.0 by { assert [3.0, 5.0][..1] == [3.0]; }
    assert SumOf([3.0, 5.0, 7.0]) == 15.0 by { assert [3.0, 5.0, 7.0][..2] == [3.0, 5.0]; }
    assert SumOf([3.0, 5.0, 7.0, 9.0]) == 24.0 by { assert [3.0, 5.0, 7.0, 9.0][..3] == [3.0, 5.0, 7.0]; }
    assert s == 24.0;
  }

  /** A lazy zero vector divided by a nonzero vector reads back as zeros. */
  method LazyDivide() {
    var v := new Vector(4);
    var d := new Vector(4);
    var st := d.SetData([1.0, 2.0, 4.0, 8.0]);
    ghost var divisors := d.Contents();
    assert divisors == [1.0, 2.0, 4.0, 8.0];
    assert forall i :: 0 <= i < 4 ==> divisors[i] > 0.0;
    ghost var dividends := v.Contents();
    assert forall i :: 0 <= i < 4 ==> dividends[i] == 0.0;
    st := v.Div(d);
    assert forall i :: 0 <= i < 4 ==> v.Contents()[i] == dividends[i] / divisors[i] == 0.0;
    var data := v.Data();
    assert forall i :: 0 <= i < 4 ==> data[i] == 0.0;
    assert data == [0.0, 0.0, 0.0, 0.0];
  }

  /** A pattern tiled over a receiver twice its length is added to each
      half. */
  method AddRepeatedTwice(x: seq<real>, w: seq<real>) {
    if |w| == 0 || |x| != 2 * |w| {
      return;
    }
    var v := new Vector(|x|);
    var p := new Vector(|w|);
    var st := v.SetData(x);
    st := p.SetData(w);
    var r := RepeatedOp(v, Add, p);
    TiledTwice(x, w);
    assert v.Contents() == DeviceMath.Axpy(1.0, w + w, x);
  }

  /** A table that sends two inputs to the same output accumulates both on
      the way back. */
  method ScatterSums(a: real, b: real) {
    var r := NewMapper32(1, [0, 0]);
    var m := r.value;
    var src := new Vector(2);
    var dst := new Vector(1);
    var st := src.SetData([a, b]);
    st := m.MapTranspose(src, dst);
    SumWherePair(a, b);
    assert dst.Contents()[0] == a + b;
  }

  /** Both values of a table `[0, 0]` are summed into position 0. */
  lemma SumWherePair(a: real, b: real)
    ensures SumWhere([a, b], [0, 0], 0) == a + b
  {
    assert [a, b][..1] == [a] && [0, 0][..1] == [0];
    assert [a][..0] == [] && [0][..0] == [];
  }
}
