/**
 The byte format in which sketches are exchanged (core/src/drift/sketch.rs,
 `to_bytes` and `from_bytes`).
 */
module SketchWire {
  import opened Sequences
  import opened Sketch

  const CELL_BITS: nat := 168

  /** The `w` low bits of a number, least significant first. */
  function Encode(n: nat, w: nat): (r: Bits)
    ensures |r| == w
  {
    if w == 0 then [] else [n % 2 == 1] + Encode(n / 2, w - 1)
  }

  function Value(b: Bits): nat {
    if b == [] then 0 else (if b[0] then 1 else 0) + 2 * Value(b[1..])
  }

  lemma {:induction false} NumberRoundTrip(n: nat, w: nat)
    requires n < Pow2(w)
    ensures Value(Encode(n, w)) == n
  {
    if w > 0 {
      NumberRoundTrip(n / 2, w - 1);
      assert Encode(n, w)[1..] == Encode(n / 2, w - 1);
    }
  }

  lemma ValueBound(b: Bits)
    ensures Value(b) < Pow2(|b|)
  {
  }

  lemma WidthBounds()
    ensures Pow2(8) == 256 && Pow2(16) == 65536
  {
    assert Pow2(4) == 16;
    assert Pow2(8) == 16 * Pow2(4);
    assert Pow2(12) == 16 * Pow2(8);
    assert Pow2(16) == 16 * Pow2(12);
  }

  /** A cell after a trip over the wire: the count is cut to an unsigned byte. */
  function Narrow(cell: Cell): Cell {
    cell.(count := cell.count % 256)
  }

  function CellToBits(cell: Cell): (r: Bits)
    ensures |r| == CELL_BITS
  {
    Encode(cell.count % 256, 8) + cell.keySum + cell.keyCheck
  }

  function CellFromBits(b: Bits): Cell
    requires |b| == CELL_BITS
  {
    Cell(Value(b[..8]), b[8..136], b[136..])
  }

  function CellsToBits(t: Table): (r: Bits)
    ensures |r| == CELL_BITS * |t|
  {
    if t == [] then [] else CellsToBits(t[..|t| - 1]) + CellToBits(t[|t| - 1])
  }

  function CellsFromBits(b: Bits, n: nat): (t: Table)
    requires |b| == CELL_BITS * n
    ensures |t| == n
  {
    if n == 0 then []
    else CellsFromBits(b[..CELL_BITS * (n - 1)], n - 1) + [CellFromBits(b[CELL_BITS * (n - 1)..])]
  }

  /** A u16 cell count, then the cells; `None` when the count does not fit. */
  function ToBytes(t: Table): Option<Bits> {
    if |t| > 65535 then None else Some(Encode(|t|, 16) + CellsToBits(t))
  }

  function FromBytes(b: Bits): Option<Table> {
    if |b| < 16 then None
    else
      var n := Value(b[..16]);
      if |b| != 16 + n * CELL_BITS then None else Some(CellsFromBits(b[16..], n))
  }

  lemma CellRoundTrip(cell: Cell)
    ensures CellFromBits(CellToBits(cell)) == Narrow(cell)
  {
    WidthBounds();
    NumberRoundTrip(cell.count % 256, 8);
    var b := CellToBits(cell);
    assert b[..8] == Encode(cell.count % 256, 8);
    assert b[8..136] == cell.keySum && b[136..] == cell.keyCheck;
  }

  lemma SplitLast(front: Bits, last: Bits, n: nat)
    requires n > 0 && |front| == CELL_BITS * (n - 1) && |last| == CELL_BITS
    ensures (front + last)[..CELL_BITS * (n - 1)] == front && (front + last)[CELL_BITS * (n - 1)..] == last
  {
  }

  lemma {:induction false} CellsRoundTrip(t: Table)
    ensures CellsFromBits(CellsToBits(t), |t|) == Map(Narrow, t)
  {
    if t != [] {
      var front, last := t[..|t| - 1], t[|t| - 1];
      CellsRoundTrip(front);
      CellRoundTrip(last);
      SplitLast(CellsToBits(front), CellToBits(last), |t|);
      assert t == front + [last];
      hide CellToBits, CellFromBits, Narrow;
      MapConcat(Narrow, front, [last]);
      assert Map(Narrow, [last]) == [Narrow(last)];
    }
  }

  ghost predicate ByteCounts(t: Table) {
    forall i :: 0 <= i < |t| ==> 0 <= t[i].count < 256
  }

  lemma NarrowIdentity(t: Table)
    ensures Map(Narrow, t) == t <==> ByteCounts(t)
  {
    if ByteCounts(t) {
      assert forall i :: 0 <= i < |t| ==> Map(Narrow, t)[i] == t[i];
    } else {
      var i :| 0 <= i < |t| && !(0 <= t[i].count < 256);
      assert Map(Narrow, t)[i] != t[i];
    }
  }

  lemma Parses(n: nat, header: Bits, body: Bits)
    requires |header| == 16 && Value(header) == n && |body| == n * CELL_BITS
    ensures FromBytes(header + body) == Some(CellsFromBits(body, n))
  {
    assert (header + body)[..16] == header && (header + body)[16..] == body;
  }

  /** Bit `i` of an encoded number is its `i`-th binary digit. */
  lemma {:induction false} EncodedBit(n: nat, w: nat, i: nat)
    requires i < w
    ensures Encode(n, w)[i] <==> n / Pow2(i) % 2 == 1
  {
    if i > 0 {
      EncodedBit(n / 2, w - 1, i - 1);
      assert n / 2 / Pow2(i - 1) == n / Pow2(i) by { HalvesDivide(n, Pow2(i - 1)); }
    }
  }

  lemma HalvesDivide(n: nat, d: nat)
    requires d > 0
    ensures n / 2 / d == n / (2 * d)
  {
    var q, r := n / 2 / d, n / 2 % d;
    assert n / 2 == q * d + r;
    var rest := 2 * r + n % 2;
    assert n == (2 * d) * q + rest && 0 <= rest < 2 * d;
    QuotientUnique(n, 2 * d, q, rest);
  }

  lemma QuotientUnique(n: nat, d: nat, q: nat, r: nat)
    requires d > 0 && n == d * q + r && r < d
    ensures n / d == q
  {
    assert n == d * (n / d) + n % d;
    assert d * (q - n / d) == d * q - d * (n / d);
    AtLeastOnce(d, q - n / d);
  }

  lemma AtLeastOnce(d: nat, k: int)
    ensures k >= 1 ==> d * k >= d
    ensures k <= -1 ==> d * k <= 0 - d
  {
  }

  lemma {:induction false} CellPlace(t: Table, i: nat)
    requires i < |t|
    ensures CELL_BITS * (i + 1) <= |CellsToBits(t)|
    ensures CellsToBits(t)[CELL_BITS * i..CELL_BITS * (i + 1)] == CellToBits(t[i])
  {
    hide CellToBits;
    var front, last := t[..|t| - 1], t[|t| - 1];
    if i < |front| {
      CellPlace(front, i);
      var a := CellsToBits(front);
      assert (a + CellToBits(last))[CELL_BITS * i..CELL_BITS * (i + 1)] == a[CELL_BITS * i..CELL_BITS * (i + 1)];
    } else {
      SplitLast(CellsToBits(front), CellToBits(last), |t|);
      assert CELL_BITS * (i + 1) == |CellsToBits(t)|;
    }
  }

  /**
   The layout: a 16-bit number of cells, then for each cell an 8-bit count, the 128 bits of its key
   sum and the 32 bits of its check, numbers with the lowest bit first.
   */
  lemma WireLayout(t: Table, i: nat)
    requires ToBytes(t).Some? && i < |t|
    ensures var b := ToBytes(t).value;
            && |b| == 16 + 168 * |t|
            && b[..16] == Encode(|t|, 16)
            && b[16 + 168 * i..24 + 168 * i] == Encode(t[i].count % 256, 8)
            && b[24 + 168 * i..152 + 168 * i] == t[i].keySum
            && b[152 + 168 * i..184 + 168 * i] == t[i].keyCheck
  {
    hide CellsToBits, CellToBits, Encode;
    CellPlace(t, i);
    PartOf(Encode(|t|, 16), CellsToBits(t), 168 * i, 168 * i + 168);
    CellParts(ToBytes(t).value, 16 + 168 * i, t[i]);
  }

  lemma PartOf(header: Bits, body: Bits, lo: nat, hi: nat)
    requires lo <= hi <= |body|
    ensures (header + body)[..|header|] == header
    ensures (header + body)[|header| + lo..|header| + hi] == body[lo..hi]
  {
  }

  lemma CellParts(b: Bits, lo: nat, cell: Cell)
    requires lo + 168 <= |b| && b[lo..lo + 168] == CellToBits(cell)
    ensures b[lo..lo + 8] == Encode(cell.count % 256, 8)
    ensures b[lo + 8..lo + 136] == cell.keySum && b[lo + 136..lo + 168] == cell.keyCheck
  {
    var c := b[lo..lo + 168];
    InnerSlice(b, lo, 0, 8);
    InnerSlice(b, lo, 8, 136);
    InnerSlice(b, lo, 136, 168);
    assert c == Encode(cell.count % 256, 8) + cell.keySum + cell.keyCheck;
  }

  lemma InnerSlice(b: Bits, lo: nat, x: nat, y: nat)
    requires x <= y <= 168 && lo + 168 <= |b|
    ensures b[lo..lo + 168][x..y] == b[lo + x..lo + y]
  {
    var c := b[lo..lo + 168];
    assert forall i :: x <= i < y ==> c[i] == b[lo + i];
    assert |c[x..y]| == |b[lo + x..lo + y]|;
    assert forall i :: 0 <= i < y - x ==> c[x..y][i] == c[x + i] && b[lo + x..lo + y][i] == b[lo + x + i];
  }

  /** The wire format is defined up to 65535 cells and loses exactly the counts outside 0..255. */
  lemma WireRoundTrip(t: Table)
    ensures ToBytes(t).Some? <==> |t| <= 65535
    ensures ToBytes(t).Some? ==> FromBytes(ToBytes(t).value) == Some(Map(Narrow, t))
    ensures ToBytes(t).Some? ==> (FromBytes(ToBytes(t).value) == Some(t) <==> ByteCounts(t))
  {
    if |t| <= 65535 {
      WidthBounds();
      NumberRoundTrip(|t|, 16);
      Parses(|t|, Encode(|t|, 16), CellsToBits(t));
      CellsRoundTrip(t);
      NarrowIdentity(t);
    }
  }
}
