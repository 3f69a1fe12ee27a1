/** The struct layout rule: fields are placed in declared order, each at the
    running cursor rounded up to its alignment, and the aggregate's size,
    alignment and stride follow from the placement. */
module Engine {
  import opened Alignment
  import opened Primitives

  /** The state of the running cursor after placing some fields. */
  datatype Placement = Placement(offsets: seq<nat>, end: nat, maxAlign: Pos)

  /** What `MemoryLayout` reports for an inline aggregate, plus the offset of each field. */
  datatype Layout = Layout(offsets: seq<nat>, size: nat, alignment: Pos, stride: nat)

  /** Left fold over the fields: place the first field at the cursor rounded up to
      its alignment, advance the cursor past it, and continue with the rest. */
  function PlaceFrom(shapes: seq<Shape>, cursor: nat, maxAlign: Pos): (p: Placement)
    ensures |p.offsets| == |shapes|
    decreases |shapes|
  {
    if shapes == [] then Placement([], cursor, maxAlign)
    else
      var offset := RoundUp(cursor, shapes[0].alignment);
      var rest := PlaceFrom(shapes[1..], offset + shapes[0].size, Max(maxAlign, shapes[0].alignment));
      Placement([offset] + rest.offsets, rest.end, rest.maxAlign)
  }

  /** The layout of an inline aggregate whose fields have the given footprints, in order:
      the cursor starts at 0 and the alignment at 1; the size is where the cursor stops,
      and the stride is the size rounded up to the alignment. */
  function InlineLayout(shapes: seq<Shape>): (l: Layout)
    ensures |l.offsets| == |shapes|
    ensures l.stride % l.alignment == 0
    ensures l.size <= l.stride < l.size + l.alignment
  {
    var p := PlaceFrom(shapes, 0, 1);
    Layout(p.offsets, p.end, p.maxAlign, RoundUp(p.end, p.maxAlign))
  }

  // ---------------------------------------------------------------------------
  // The rule stated declaratively, independently of the fold.
  // ---------------------------------------------------------------------------

  /** Where the field before field `i` ends (`start` for the first field). */
  ghost function EndBefore(shapes: seq<Shape>, offsets: seq<nat>, start: nat, i: nat): nat
    requires |offsets| == |shapes| && i <= |shapes|
  {
    if i == 0 then start else offsets[i - 1] + shapes[i - 1].size
  }

  /** Each field sits at the smallest multiple of its alignment not below the end of
      the previous field. */
  ghost predicate PlacedAfter(shapes: seq<Shape>, offsets: seq<nat>, start: nat) {
    && |offsets| == |shapes|
    && forall i :: 0 <= i < |shapes| ==>
         IsRoundUp(offsets[i], EndBefore(shapes, offsets, start, i), shapes[i].alignment)
  }

  /** `a` is the largest field alignment, or 1 when there are no fields. */
  ghost predicate IsMaxAlignment(shapes: seq<Shape>, a: Pos) {
    && (forall i :: 0 <= i < |shapes| ==> shapes[i].alignment <= a)
    && (a == 1 || exists i :: 0 <= i < |shapes| && shapes[i].alignment == a)
  }

  /** The layout rule of an inline aggregate: placement, size without trailing padding,
      largest alignment, and stride as the size rounded up to that alignment. */
  ghost predicate IsLayoutOf(shapes: seq<Shape>, l: Layout) {
    && PlacedAfter(shapes, l.offsets, 0)
    && l.size == EndBefore(shapes, l.offsets, 0, |shapes|)
    && IsMaxAlignment(shapes, l.alignment)
    && IsRoundUp(l.stride, l.size, l.alignment)
  }

  // ---------------------------------------------------------------------------
  // The fold computes exactly the declarative layout.
  // ---------------------------------------------------------------------------

  /** The fold places every field as the rule demands and stops where the last field ends. */
  lemma {:induction false} PlaceFromPlaces(shapes: seq<Shape>, cursor: nat, maxAlign: Pos)
    ensures PlacedAfter(shapes, PlaceFrom(shapes, cursor, maxAlign).offsets, cursor)
    ensures PlaceFrom(shapes, cursor, maxAlign).end
         == EndBefore(shapes, PlaceFrom(shapes, cursor, maxAlign).offsets, cursor, |shapes|)
    decreases |shapes|
  {
    if shapes != [] {
      var p := PlaceFrom(shapes, cursor, maxAlign);
      var offset := RoundUp(cursor, shapes[0].alignment);
      var next := offset + shapes[0].size;
      var tail := shapes[1..];
      var rest := PlaceFrom(tail, next, Max(maxAlign, shapes[0].alignment));
      PlaceFromPlaces(tail, next, Max(maxAlign, shapes[0].alignment));
      assert p.offsets == [offset] + rest.offsets;
      forall i | 1 <= i <= |shapes|
        ensures EndBefore(shapes, p.offsets, cursor, i) == EndBefore(tail, rest.offsets, next, i - 1)
      {
      }
      forall i | 0 <= i < |shapes|
        ensures IsRoundUp(p.offsets[i], EndBefore(shapes, p.offsets, cursor, i), shapes[i].alignment)
      {
        if i > 0 {
          assert p.offsets[i] == rest.offsets[i - 1] && shapes[i] == tail[i - 1];
        }
      }
    }
  }

  /** The fold's running alignment ends as the largest of the start value and the field alignments. */
  lemma {:induction false} PlaceFromMaxAlign(shapes: seq<Shape>, cursor: nat, maxAlign: Pos)
    ensures maxAlign <= PlaceFrom(shapes, cursor, maxAlign).maxAlign
    ensures forall i :: 0 <= i < |shapes| ==> shapes[i].alignment <= PlaceFrom(shapes, cursor, maxAlign).maxAlign
    ensures || PlaceFrom(shapes, cursor, maxAlign).maxAlign == maxAlign
            || exists i :: 0 <= i < |shapes| && shapes[i].alignment == PlaceFrom(shapes, cursor, maxAlign).maxAlign
    decreases |shapes|
  {
    if shapes != [] {
      var p := PlaceFrom(shapes, cursor, maxAlign);
      var next := RoundUp(cursor, shapes[0].alignment) + shapes[0].size;
      var m := Max(maxAlign, shapes[0].alignment);
      var tail := shapes[1..];
      PlaceFromMaxAlign(tail, next, m);
      assert p.maxAlign == PlaceFrom(tail, next, m).maxAlign;
      forall i | 0 <= i < |shapes|
        ensures shapes[i].alignment <= p.maxAlign
      {
        if i > 0 {
          assert shapes[i] == tail[i - 1];
        }
      }
      if p.maxAlign != maxAlign {
        if p.maxAlign == m {
          assert shapes[0].alignment == p.maxAlign;
        } else {
          var j :| 0 <= j < |tail| && tail[j].alignment == p.maxAlign;
          assert shapes[j + 1].alignment == p.maxAlign;
        }
      }
    }
  }

  /** The fold satisfies the layout rule. */
  lemma InlineLayoutIsLayout(shapes: seq<Shape>)
    ensures IsLayoutOf(shapes, InlineLayout(shapes))
  {
    PlaceFromPlaces(shapes, 0, 1);
    PlaceFromMaxAlign(shapes, 0, 1);
  }

  /** Offsets placed by the rule are determined by the fields and the start. */
  lemma {:induction false} PlacedUnique(shapes: seq<Shape>, o1: seq<nat>, o2: seq<nat>, start: nat, k: nat)
    requires PlacedAfter(shapes, o1, start) && PlacedAfter(shapes, o2, start)
    requires k <= |shapes|
    ensures forall j :: 0 <= j < k ==> o1[j] == o2[j]
  {
    if k > 0 {
      PlacedUnique(shapes, o1, o2, start, k - 1);
      var i := k - 1;
      var e := EndBefore(shapes, o1, start, i);
      assert EndBefore(shapes, o2, start, i) == e;
      RoundUpUnique(o1[i], e, shapes[i].alignment);
      RoundUpUnique(o2[i], e, shapes[i].alignment);
    }
  }

  /** The layout rule has only one solution, and the fold computes it. */
  lemma LayoutUnique(shapes: seq<Shape>, l: Layout)
    requires IsLayoutOf(shapes, l)
    ensures l == InlineLayout(shapes)
  {
    var r := InlineLayout(shapes);
    InlineLayoutIsLayout(shapes);
    PlacedUnique(shapes, l.offsets, r.offsets, 0, |shapes|);
    RoundUpUnique(l.stride, l.size, l.alignment);
    RoundUpUnique(r.stride, r.size, r.alignment);
  }

  // ---------------------------------------------------------------------------
  // Consequences of the rule.
  // ---------------------------------------------------------------------------

  /** Field `i` ends no later than any later field starts, and every field ends within
      the aggregate's size: fields never overlap and nothing sticks out. */
  lemma {:induction false} FieldsDisjoint(shapes: seq<Shape>, i: nat, j: nat)
    requires i < |shapes|
    requires i < j <= |shapes|
    ensures var l := InlineLayout(shapes);
      j < |shapes| ==> l.offsets[i] + shapes[i].size <= l.offsets[j]
    ensures var l := InlineLayout(shapes);
      j == |shapes| ==> l.offsets[i] + shapes[i].size <= l.size
    decreases j - i
  {
    var l := InlineLayout(shapes);
    InlineLayoutIsLayout(shapes);
    if j == i + 1 {
      assert EndBefore(shapes, l.offsets, 0, j) == l.offsets[i] + shapes[i].size;
    } else {
      FieldsDisjoint(shapes, i, j - 1);
      FieldsDisjoint(shapes, j - 1, j);
    }
  }

  /** Each field's offset is a multiple of its own alignment. */
  lemma FieldsAligned(shapes: seq<Shape>, i: nat)
    requires i < |shapes|
    ensures InlineLayout(shapes).offsets[i] % shapes[i].alignment == 0
  {
    InlineLayoutIsLayout(shapes);
  }

  /** The aggregate's alignment is at least every field's alignment and equals one of them
      (or 1 without fields). */
  lemma AlignmentIsLargest(shapes: seq<Shape>)
    ensures IsMaxAlignment(shapes, InlineLayout(shapes).alignment)
  {
    InlineLayoutIsLayout(shapes);
  }

  /** A run of fields started `k` bytes later, where `k` is a multiple of every field's
      alignment, is the same run shifted by `k`. */
  lemma {:induction false} PlaceFromShift(shapes: seq<Shape>, cursor: nat, k: nat, maxAlign: Pos)
    requires forall i :: 0 <= i < |shapes| ==> k % shapes[i].alignment == 0
    ensures var p, q := PlaceFrom(shapes, cursor, maxAlign), PlaceFrom(shapes, cursor + k, maxAlign);
      && (forall i :: 0 <= i < |shapes| ==> q.offsets[i] == p.offsets[i] + k)
      && q.end == p.end + k
      && q.maxAlign == p.maxAlign
    decreases |shapes|
  {
    if shapes != [] {
      var a := shapes[0].alignment;
      var m := Max(maxAlign, a);
      var tail := shapes[1..];
      RoundUpShift(cursor, k, a);
      var next := RoundUp(cursor, a) + shapes[0].size;
      PlaceFromShift(tail, next, k, m);
      var p, q := PlaceFrom(shapes, cursor, maxAlign), PlaceFrom(shapes, cursor + k, maxAlign);
      var pr, qr := PlaceFrom(tail, next, m), PlaceFrom(tail, next + k, m);
      assert p.offsets == [RoundUp(cursor, a)] + pr.offsets;
      assert q.offsets == [RoundUp(cursor, a) + k] + qr.offsets;
      forall i | 0 <= i < |shapes| ensures q.offsets[i] == p.offsets[i] + k {
        if i > 0 {
          assert q.offsets[i] == qr.offsets[i - 1] && p.offsets[i] == pr.offsets[i - 1];
        }
      }
    }
  }


  /** The starting alignment only affects the fold's running maximum, not where fields go. */
  lemma {:induction false} PlaceFromMaxAlignIrrelevant(shapes: seq<Shape>, cursor: nat, m: Pos)
    ensures PlaceFrom(shapes, cursor, m).offsets == PlaceFrom(shapes, cursor, 1).offsets
    ensures PlaceFrom(shapes, cursor, m).end == PlaceFrom(shapes, cursor, 1).end
    ensures PlaceFrom(shapes, cursor, m).maxAlign == Max(m, PlaceFrom(shapes, cursor, 1).maxAlign)
    decreases |shapes|
  {
    if shapes != [] {
      var a := shapes[0].alignment;
      var next := RoundUp(cursor, a) + shapes[0].size;
      PlaceFromMaxAlignIrrelevant(shapes[1..], next, Max(m, a));
      PlaceFromMaxAlignIrrelevant(shapes[1..], next, a);
      PlaceFromMaxAlignIrrelevant(shapes[1..], next, 1);
    }
  }
}
