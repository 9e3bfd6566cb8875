/** The Widget entity: a record of seven nullable fields, its mutable bean form and its z comparison. */
module WidgetModel {
  import opened Wrappers
  import opened Int32

  /** java.util.Date, as milliseconds since the epoch. */
  type Timestamp = int

  /** A snapshot of a widget's seven fields; every field may be null (None). */
  datatype Widget = Widget(
    id: Option<string>,
    x: Option<int32>,
    y: Option<int32>,
    z: Option<int32>,
    width: Option<int32>,
    height: Option<int32>,
    lastModified: Option<Timestamp>)

  /** The bounding rectangle of a filtered read; four plain ints. */
  datatype Filter = Filter(xStart: int32, yStart: int32, xStop: int32, yStop: int32)

  /** The mutable bean the service receives and returns; `Value()` is its current field record. */
  class WidgetBean {
    var id: Option<string>
    var x: Option<int32>
    var y: Option<int32>
    var z: Option<int32>
    var width: Option<int32>
    var height: Option<int32>
    var lastModified: Option<Timestamp>

    function Value(): (r: Widget)
      reads this
    {
      Widget(id, x, y, z, width, height, lastModified)
    }

    /** The five-argument constructor: geometry only, id and timestamp stay null. */
    constructor (x: Option<int32>, y: Option<int32>, z: Option<int32>, width: Option<int32>, height: Option<int32>)
      ensures Value() == Widget(None, x, y, z, width, height, None)
    {
      this.id := None;
      this.x := x;
      this.y := y;
      this.z := z;
      this.width := width;
      this.height := height;
      this.lastModified := None;
    }

    /** The copy constructor: all seven fields equal the original's. */
    constructor Copy(other: WidgetBean)
      ensures Value() == other.Value()
    {
      id := other.id;
      height := other.height;
      width := other.width;
      x := other.x;
      y := other.y;
      z := other.z;
      lastModified := other.lastModified;
    }

    /** The no-argument constructor: every field null. */
    constructor Blank()
      ensures Value() == Widget(None, None, None, None, None, None, None)
    {
      id, x, y, z, width, height, lastModified := None, None, None, None, None, None, None;
    }

    method SetId(id: Option<string>)
      modifies this
      ensures Value() == old(Value()).(id := id)
    {
      this.id := id;
    }

    method SetXCoord(x: Option<int32>)
      modifies this
      ensures Value() == old(Value()).(x := x)
    {
      this.x := x;
    }

    method SetYCoord(y: Option<int32>)
      modifies this
      ensures Value() == old(Value()).(y := y)
    {
      this.y := y;
    }

    method SetZIndex(z: Option<int32>)
      modifies this
      ensures Value() == old(Value()).(z := z)
    {
      this.z := z;
    }

    method SetWidth(width: Option<int32>)
      modifies this
      ensures Value() == old(Value()).(width := width)
    {
      this.width := width;
    }

    method SetHeight(height: Option<int32>)
      modifies this
      ensures Value() == old(Value()).(height := height)
    {
      this.height := height;
    }

    method SetLastModified(lastModified: Option<Timestamp>)
      modifies this
      ensures Value() == old(Value()).(lastModified := lastModified)
    {
      this.lastModified := lastModified;
    }
  }

  /** True when `a - b` needs no wrap-around in 32 bits. */
  predicate DifferenceFits(a: int32, b: int32)
  {
    MinInt32 <= a - b <= MaxInt32
  }

  /**
   * Widget.compareTo as written: `this.z - other.z` in 32-bit arithmetic
   * (a null z throws; inside the store every widget has a z).
   */
  function CompareTo(a: Widget, b: Widget): (r: int32)
    requires a.z.Some? && b.z.Some?
    ensures (r - (a.z.value - b.z.value)) % Modulus == 0
  {
    Wrap(a.z.value - b.z.value)
  }

  /** Without overflow, compareTo orders widgets by ascending z. */
  lemma CompareToSign(a: Widget, b: Widget)
    requires a.z.Some? && b.z.Some? && DifferenceFits(a.z.value, b.z.value)
    ensures CompareTo(a, b) == 0 <==> a.z == b.z
    ensures CompareTo(a, b) < 0 <==> a.z.value < b.z.value
    ensures CompareTo(a, b) > 0 <==> a.z.value > b.z.value
  {
  }

  /** When neither subtraction overflows, swapping the operands flips the sign. */
  lemma CompareToAntisymmetric(a: Widget, b: Widget)
    requires a.z.Some? && b.z.Some?
    requires DifferenceFits(a.z.value, b.z.value) && DifferenceFits(b.z.value, a.z.value)
    ensures CompareTo(a, b) < 0 <==> CompareTo(b, a) > 0
    ensures CompareTo(a, b) == 0 <==> CompareTo(b, a) == 0
  {
    CompareToSign(a, b);
    CompareToSign(b, a);
  }

  /**
   * The subtraction overflows for far-apart z values: a widget at Integer.MIN_VALUE
   * compares ABOVE a widget at 1, and one at Integer.MAX_VALUE compares below one at -1.
   */
  lemma CompareToOverflows()
    ensures var low := Widget(None, None, None, Some(MinInt32), None, None, None);
            var one := Widget(None, None, None, Some(1), None, None, None);
            low.z.value < one.z.value && CompareTo(low, one) > 0
    ensures var high := Widget(None, None, None, Some(MaxInt32), None, None, None);
            var minusOne := Widget(None, None, None, Some(-1), None, None, None);
            high.z.value > minusOne.z.value && CompareTo(high, minusOne) < 0
  {
  }

  /** The comparison compareTo evidently intends (Integer.compare on z); the store's ordering uses it. */
  function CompareZ(a: Widget, b: Widget): (r: int)
    requires a.z.Some? && b.z.Some?
    ensures r < 0 <==> a.z.value < b.z.value
    ensures r == 0 <==> a.z == b.z
    ensures -1 <= r <= 1
  {
    if a.z.value < b.z.value then -1 else if a.z.value == b.z.value then 0 else 1
  }

  /** CompareZ is a total preorder on widgets, for every pair of z values. */
  lemma CompareZOrders(a: Widget, b: Widget, c: Widget)
    requires a.z.Some? && b.z.Some? && c.z.Some?
    ensures CompareZ(a, b) == -CompareZ(b, a)
    ensures CompareZ(a, b) <= 0 && CompareZ(b, c) <= 0 ==> CompareZ(a, c) <= 0
  {
  }
}
