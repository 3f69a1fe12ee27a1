/** Type descriptors and the queries the playground makes of them:
    `MemoryLayout<T>.size/.alignment/.stride` and `class_getInstanceSize`. */
module TypeLayout {
  import opened Alignment
  import opened Primitives
  import opened Engine

  /** A struct is stored inline; a class instance lives on the heap behind a reference. */
  datatype Allocation = Inline | Reference

  datatype Type =
    | Prim(kind: Kind)
    | Composite(fields: seq<Field>, allocation: Allocation)

  datatype Field = Field(name: string, ty: Type)

  datatype Option<T> = None | Some(value: T)

  /** What `MemoryLayout<T>` reports. */
  datatype Metrics = Metrics(size: nat, alignment: Pos, stride: nat)

  /** The bookkeeping in front of every class instance: the isa pointer and the reference count. */
  const Header: Shape := Shape(16, 8)

  /** The footprint a value of type `t` occupies where it is stored: the primitive table,
      the inline layout of a struct, or the pointer-sized reference for a class. */
  function ShapeOf(t: Type): (s: Shape)
    ensures DividesWord(s.alignment)
    decreases t
  {
    match t
    case Prim(k) => ShapeOfKind(k)
    case Composite(fields, Reference) => Word
    case Composite(fields, Inline) =>
      var shapes := FieldShapes(fields);
      var l := InlineLayout(shapes);
      AlignmentIsLargest(shapes);
      Shape(l.size, l.alignment)
  }

  /** The footprints of the fields, in declared order. */
  function FieldShapes(fields: seq<Field>): (r: seq<Shape>)
    ensures |r| == |fields|
    ensures forall i :: 0 <= i < |fields| ==> r[i] == ShapeOf(fields[i].ty)
    ensures forall i :: 0 <= i < |fields| ==> DividesWord(r[i].alignment)
    decreases fields
  {
    if fields == [] then []
    else [ShapeOf(fields[0].ty)] + FieldShapes(fields[1..])
  }

  /** `MemoryLayout<T>`: size and alignment of the stored value, and the stride that
      separates consecutive values of `t` in an array. */
  function MemoryLayoutOf(t: Type): (m: Metrics)
    ensures m.stride % m.alignment == 0
    ensures m.size <= m.stride < m.size + m.alignment
    ensures DividesWord(m.alignment)
  {
    var s := ShapeOf(t);
    Metrics(s.size, s.alignment, RoundUp(s.size, s.alignment))
  }

  /** The layout of a class's stored properties, laid out as if they formed a struct;
      it follows the layout rule. */
  function FieldLayout(fields: seq<Field>): (l: Layout)
    ensures IsLayoutOf(FieldShapes(fields), l)
  {
    InlineLayoutIsLayout(FieldShapes(fields));
    InlineLayout(FieldShapes(fields))
  }

  /** `class_getInstanceSize`: the header followed by the padded stored properties. The
      result covers the header and every property, and the part after the header is a
      whole number of property-alignment units. */
  function HeapInstanceSize(fields: seq<Field>): (n: nat)
    ensures var l := InlineLayout(FieldShapes(fields));
      Header.size + l.size <= n < Header.size + l.size + l.alignment
    ensures (n - Header.size) % InlineLayout(FieldShapes(fields)).alignment == 0
  {
    Header.size + InlineLayout(FieldShapes(fields)).stride
  }

  /** `T?`, laid out as the two-field struct `{present: Bool, payload: T}`: the payload's
      alignment, and the payload's size plus one payload-alignment unit for the flag. */
  function Optional(t: Type): (o: Type)
    ensures var s := ShapeOf(t);
      ShapeOf(o) == Shape(s.alignment + s.size, s.alignment)
  {
    var s := ShapeOf(t);
    var fs := [Field("present", Prim(Bool)), Field("payload", t)];
    assert FieldShapes(fs) == [Shape(1, 1), s] by {
      assert fs[0].ty == Prim(Bool) && fs[1].ty == t;
    }
    TagThenPayload(s);
    Composite(fs, Inline)
  }

  /** The index of the field called `name`, or None when no field has that name. */
  function IndexOf(fields: seq<Field>, name: string): (r: Option<nat>)
    ensures r.None? <==> forall i :: 0 <= i < |fields| ==> fields[i].name != name
    ensures r.Some? ==> r.value < |fields| && fields[r.value].name == name
    ensures r.Some? ==> forall j :: 0 <= j < r.value ==> fields[j].name != name
    decreases fields
  {
    if fields == [] then None
    else if fields[0].name == name then Some(0)
    else match IndexOf(fields[1..], name)
      case None => None
      case Some(i) => Some(i + 1)
  }

  /** The byte offset of the field called `name` within a struct with these fields:
      None exactly when no field has the name, otherwise the layout offset of a field
      that has it. */
  function OffsetOf(fields: seq<Field>, name: string): (r: Option<nat>)
    ensures r.None? <==> forall i :: 0 <= i < |fields| ==> fields[i].name != name
    ensures r.Some? ==>
      exists i :: 0 <= i < |fields| && fields[i].name == name && r.value == FieldLayout(fields).offsets[i]
  {
    match IndexOf(fields, name)
    case None => None
    case Some(i) => Some(FieldLayout(fields).offsets[i])
  }

  // ---------------------------------------------------------------------------
  // Properties.
  // ---------------------------------------------------------------------------

  /** A struct's `MemoryLayout` is its inline layout: the fold over its fields. */
  lemma StructMetrics(fields: seq<Field>)
    ensures var m, l := MemoryLayoutOf(Composite(fields, Inline)), FieldLayout(fields);
      m == Metrics(l.size, l.alignment, l.stride)
    ensures IsLayoutOf(FieldShapes(fields), FieldLayout(fields))
  {
    InlineLayoutIsLayout(FieldShapes(fields));
  }

  /** A class queried through `MemoryLayout` is a reference: 8 bytes, 8-aligned,
      stride 8, whatever its stored properties. */
  lemma ClassMetrics(fields: seq<Field>)
    ensures MemoryLayoutOf(Composite(fields, Reference)) == Metrics(8, 8, 8)
  {
  }

  /** A class stored inside a struct contributes the same 8-byte reference whatever
      its own stored properties: swapping the class's fields moves nothing in the struct. */
  lemma ClassFieldIsHandle(before: seq<Field>, after: seq<Field>, name: string, c1: seq<Field>, c2: seq<Field>)
    ensures FieldLayout(before + [Field(name, Composite(c1, Reference))] + after)
         == FieldLayout(before + [Field(name, Composite(c2, Reference))] + after)
  {
    var f1 := before + [Field(name, Composite(c1, Reference))] + after;
    var f2 := before + [Field(name, Composite(c2, Reference))] + after;
    assert FieldShapes(f1) == FieldShapes(f2) by {
      forall i | 0 <= i < |f1|
        ensures FieldShapes(f1)[i] == FieldShapes(f2)[i]
      {
        if i != |before| {
          assert f1[i] == f2[i];
        }
      }
    }
  }

  /** A struct without stored properties: size 0, alignment 1, stride 0. */
  lemma EmptyStructMetrics()
    ensures MemoryLayoutOf(Composite([], Inline)) == Metrics(0, 1, 0)
  {
  }

  /** A struct stored at an address that is a multiple of its alignment has every stored
      property at an address that is a multiple of that property's own alignment. */
  lemma FieldAddressesAligned(fields: seq<Field>, base: nat, i: nat)
    requires i < |fields|
    requires base % MemoryLayoutOf(Composite(fields, Inline)).alignment == 0
    ensures (base + FieldLayout(fields).offsets[i]) % ShapeOf(fields[i].ty).alignment == 0
  {
    var shapes := FieldShapes(fields);
    var l := FieldLayout(fields);
    var a := shapes[i].alignment;
    StructMetrics(fields);
    assert a <= l.alignment;
    DividesWordNested(a, l.alignment);
    MultipleOfDivisor(base, l.alignment, a);
    FieldsAligned(shapes, i);
    MultipleSum(base, l.offsets[i], a);
  }

  /** `class_getInstanceSize` agrees with laying out the header as a first field: every stored
      property lands 16 bytes further on than in the struct layout, the properties end 16 bytes
      after the struct size, and the instance size covers them. The instance is word aligned. */
  lemma HeapInstanceLayout(fields: seq<Field>)
    ensures var inner, heap := InlineLayout(FieldShapes(fields)), InlineLayout([Header] + FieldShapes(fields));
      && heap.offsets[0] == 0
      && (forall i :: 0 <= i < |fields| ==> heap.offsets[i + 1] == Header.size + inner.offsets[i])
      && heap.size == Header.size + inner.size
      && heap.size <= HeapInstanceSize(fields) < heap.size + inner.alignment
      && heap.alignment == 8
  {
    HeaderPlacement(FieldShapes(fields));
  }

  /** The header placed as a first field in front of fields whose alignments divide the word. */
  lemma HeaderPlacement(shapes: seq<Shape>)
    requires forall i :: 0 <= i < |shapes| ==> DividesWord(shapes[i].alignment)
    ensures var inner, heap := InlineLayout(shapes), InlineLayout([Header] + shapes);
      && heap.offsets[0] == 0
      && (forall i :: 0 <= i < |shapes| ==> heap.offsets[i + 1] == Header.size + inner.offsets[i])
      && heap.size == Header.size + inner.size
      && heap.alignment == 8
      && inner.alignment <= 8
  {
    var inner := InlineLayout(shapes);
    forall i | 0 <= i < |shapes| ensures 16 % shapes[i].alignment == 0 {
      DividesWordDividesHeader(shapes[i].alignment);
    }
    HeaderFirst(shapes);
    HeaderShift(shapes, 8);
    assert inner.alignment <= 8 by {
      AlignmentIsLargest(shapes);
      if inner.alignment != 1 {
        var j :| 0 <= j < |shapes| && shapes[j].alignment == inner.alignment;
        assert DividesWord(shapes[j].alignment);
      }
    }
  }

  /** Stored properties placed after the 16-byte header sit 16 bytes further on than in
      the struct layout, when every alignment divides 16. */
  lemma HeaderShift(shapes: seq<Shape>, m: Pos)
    requires forall i :: 0 <= i < |shapes| ==> 16 % shapes[i].alignment == 0
    ensures |PlaceFrom(shapes, 16, m).offsets| == |shapes|
    ensures forall i :: 0 <= i < |shapes| ==> PlaceFrom(shapes, 16, m).offsets[i] == InlineLayout(shapes).offsets[i] + 16
    ensures PlaceFrom(shapes, 16, m).end == InlineLayout(shapes).size + 16
    ensures PlaceFrom(shapes, 16, m).maxAlign == Max(m, InlineLayout(shapes).alignment)
  {
    PlaceFromShift(shapes, 0, 16, m);
    PlaceFromMaxAlignIrrelevant(shapes, 0, m);
  }

  /** Placing the header first starts the stored properties at offset 16 with running alignment 8. */
  lemma HeaderFirst(shapes: seq<Shape>)
    ensures var heap, p := InlineLayout([Header] + shapes), PlaceFrom(shapes, 16, 8);
      heap.offsets == [0] + p.offsets && heap.size == p.end && heap.alignment == p.maxAlign
  {
    var all := [Header] + shapes;
    assert all[0] == Header && all[1..] == shapes;
    assert RoundUp(0, 8) == 0;
  }

  /** `T?` costs the payload plus padding up to the payload's alignment, with the payload's
      alignment; the payload sits one payload-alignment unit in. */
  lemma OptionalMetrics(t: Type)
    ensures var s, o := ShapeOf(t), FieldLayout(Optional(t).fields);
      && |o.offsets| == 2 && o.offsets[0] == 0 && o.offsets[1] == s.alignment
      && MemoryLayoutOf(Optional(t)).size == s.alignment + s.size
      && MemoryLayoutOf(Optional(t)).alignment == s.alignment
  {
    var s := ShapeOf(t);
    var o := Optional(t);
    var fs := o.fields;
    assert fs == [Field("present", Prim(Bool)), Field("payload", t)];
    assert FieldShapes(fs) == [Shape(1, 1), s] by {
      assert fs[0].ty == Prim(Bool) && fs[1].ty == t;
    }
    TagThenPayload(s);
    assert FieldLayout(fs) == InlineLayout([Shape(1, 1), s]);
    assert ShapeOf(o) == Shape(s.alignment + s.size, s.alignment);
  }

  /** A one-byte tag followed by a payload: the payload moves to its own alignment. */
  lemma TagThenPayload(s: Shape)
    ensures var l := InlineLayout([Shape(1, 1), s]);
      l.offsets == [0, s.alignment as nat] && l.size == s.alignment + s.size && l.alignment == s.alignment
  {
    var a := s.alignment;
    DivModUnique(a, a, 1, 0);
    RoundUpUnique(a, 1, a);
    var tail := [Shape(1, 1), s][1..];
    assert tail == [s];
    assert PlaceFrom([s], 1, 1) == Placement([a as nat], a + s.size, a);
  }

  /** `OffsetOf` finds the offset the layout gives the named field, and fails exactly for
      a name no field carries. */
  lemma OffsetOfNamed(fields: seq<Field>, i: nat)
    requires i < |fields|
    requires forall j :: 0 <= j < |fields| && j != i ==> fields[j].name != fields[i].name
    ensures OffsetOf(fields, fields[i].name) == Some(FieldLayout(fields).offsets[i])
  {
  }

  lemma OffsetOfUnknown(fields: seq<Field>, name: string)
    requires forall j :: 0 <= j < |fields| ==> fields[j].name != name
    ensures OffsetOf(fields, name) == None
  {
  }
}
