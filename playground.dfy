/** The types declared in the playground and the numbers it records for them. */
module Playground {
  import opened Primitives
  import opened Engine
  import opened TypeLayout

  function FullResume(): Type {
    Composite([Field("id", Prim(Str)), Field("age", Prim(Int)), Field("hashVehicle", Prim(Bool))], Inline)
  }

  function FullResumeWithSwapBool(): Type {
    Composite([Field("hashVehicle", Prim(Bool)), Field("id", Prim(Str)), Field("age", Prim(Int))], Inline)
  }

  function ShortResume(): Type {
    Composite([Field("age", Prim(Int32)), Field("hashVehicle", Prim(Bool))], Inline)
  }

  function ShortResume2(): Type {
    Composite([Field("age", Prim(Int)), Field("hashVehicle", Prim(Bool))], Inline)
  }

  /** `ShortResume2` with its `Int` replaced by an `Int16`. */
  function ShortResume2WithInt16(): Type {
    Composite([Field("age", Prim(Int16)), Field("hashVehicle", Prim(Bool))], Inline)
  }

  function Test(): Type {
    Composite([
      Field("firstBool", Prim(Bool)),
      Field("array", Prim(ArrayOf)),
      Field("secondBool", Prim(Bool)),
      Field("smallInt", Prim(Int32))
    ], Inline)
  }

  function PaidServiceFields(): seq<Field> {
    [
      Field("id", Prim(Str)),
      Field("name", Prim(Str)),
      Field("isActive", Prim(Bool)),
      Field("expiresAt", Optional(Prim(Date)))
    ]
  }

  function PaidService(): Type {
    Composite(PaidServiceFields(), Reference)
  }

  /** The sizes and alignments the playground reports for the primitive types. */
  lemma PrimitiveSizes()
    ensures MemoryLayoutOf(Prim(Str)).size == 16 && MemoryLayoutOf(Prim(Str)).alignment == 8
    ensures MemoryLayoutOf(Prim(Int)).size == 8 && MemoryLayoutOf(Prim(Int)).alignment == 8
    ensures MemoryLayoutOf(Prim(Int8)).size == 1
    ensures MemoryLayoutOf(Prim(Int16)).size == 2 && MemoryLayoutOf(Prim(Int16)).alignment == 2
    ensures MemoryLayoutOf(Prim(Int32)).size == 4 && MemoryLayoutOf(Prim(Int32)).alignment == 4
    ensures MemoryLayoutOf(Prim(Int64)) == MemoryLayoutOf(Prim(Int))
    ensures MemoryLayoutOf(Prim(Bool)).size == 1 && MemoryLayoutOf(Prim(Bool)).alignment == 1
    ensures MemoryLayoutOf(Prim(Float)).size == 4
    ensures MemoryLayoutOf(Prim(Double)).size == 8
    ensures MemoryLayoutOf(Prim(ArrayOf)) == Metrics(8, 8, 8)
  {
  }

  /** `FullResume`: id@0, age@16, hashVehicle@24; size 25 with no trailing padding. */
  lemma FullResumeLayout()
    ensures FieldLayout(FullResume().fields).offsets == [0, 16, 24]
    ensures MemoryLayoutOf(FullResume()) == Metrics(25, 8, 32)
  {
    var fs := FullResume().fields;
    var shapes := [Shape(16, 8), Shape(8, 8), Shape(1, 1)];
    assert FieldShapes(fs) == shapes;
    assert IsMaxAlignment(shapes, 8) by {
      assert shapes[0].alignment == 8;
    }
    LayoutUnique(shapes, Layout([0, 16, 24], 25, 8, 32));
    StructMetrics(fs);
  }

  /** Moving the Bool first pushes the String to offset 8 and grows the size to 32. */
  lemma SwapBoolLayout()
    ensures FieldLayout(FullResumeWithSwapBool().fields).offsets == [0, 8, 24]
    ensures MemoryLayoutOf(FullResumeWithSwapBool()) == Metrics(32, 8, 32)
    ensures MemoryLayoutOf(FullResumeWithSwapBool()).size > MemoryLayoutOf(FullResume()).size
  {
    var fs := FullResumeWithSwapBool().fields;
    var shapes := [Shape(1, 1), Shape(16, 8), Shape(8, 8)];
    assert FieldShapes(fs) == shapes;
    assert IsMaxAlignment(shapes, 8) by {
      assert shapes[1].alignment == 8;
    }
    LayoutUnique(shapes, Layout([0, 8, 24], 32, 8, 32));
    StructMetrics(fs);
    FullResumeLayout();
  }

  /** `ShortResume`: size 5, stride 8, leaving 3 free bytes between consecutive values. */
  lemma ShortResumeLayout()
    ensures FieldLayout(ShortResume().fields).offsets == [0, 4]
    ensures MemoryLayoutOf(ShortResume()) == Metrics(5, 4, 8)
    ensures MemoryLayoutOf(ShortResume()).stride - MemoryLayoutOf(ShortResume()).size == 3
  {
    var fs := ShortResume().fields;
    var shapes := [Shape(4, 4), Shape(1, 1)];
    assert FieldShapes(fs) == shapes;
    assert IsMaxAlignment(shapes, 4) by {
      assert shapes[0].alignment == 4;
    }
    LayoutUnique(shapes, Layout([0, 4], 5, 4, 8));
    StructMetrics(fs);
  }

  /** `ShortResume2`: size 9, stride 16, alignment 8; the same numbers as `FullResume`
      with its String removed. */
  lemma ShortResume2Layout()
    ensures FieldLayout(ShortResume2().fields).offsets == [0, 8]
    ensures MemoryLayoutOf(ShortResume2()) == Metrics(9, 8, 16)
    ensures MemoryLayoutOf(Composite(FullResume().fields[1..], Inline)) == MemoryLayoutOf(ShortResume2())
  {
    var fs := ShortResume2().fields;
    var shapes := [Shape(8, 8), Shape(1, 1)];
    assert FieldShapes(fs) == shapes;
    assert IsMaxAlignment(shapes, 8) by {
      assert shapes[0].alignment == 8;
    }
    LayoutUnique(shapes, Layout([0, 8], 9, 8, 16));
    assert FullResume().fields[1..] == fs;
    StructMetrics(fs);
  }

  /** With an Int16 in place of the Int, the whole struct is 2-aligned. */
  lemma ShortResume2Int16Layout()
    ensures MemoryLayoutOf(ShortResume2WithInt16()).alignment == 2
  {
    var fs := ShortResume2WithInt16().fields;
    var shapes := [Shape(2, 2), Shape(1, 1)];
    assert FieldShapes(fs) == shapes;
    assert IsMaxAlignment(shapes, 2) by {
      assert shapes[0].alignment == 2;
    }
    LayoutUnique(shapes, Layout([0, 2], 3, 2, 4));
    StructMetrics(fs);
  }

  /** `Test`: firstBool@0, array@8, secondBool@16, smallInt@20; size 24, alignment 8, stride 24. */
  lemma TestLayout()
    ensures FieldLayout(Test().fields).offsets == [0, 8, 16, 20]
    ensures MemoryLayoutOf(Test()) == Metrics(24, 8, 24)
  {
    var fs := Test().fields;
    var shapes := [Shape(1, 1), Shape(8, 8), Shape(1, 1), Shape(4, 4)];
    assert FieldShapes(fs) == shapes;
    assert IsMaxAlignment(shapes, 8) by {
      assert shapes[1].alignment == 8;
    }
    LayoutUnique(shapes, Layout([0, 8, 16, 20], 24, 8, 24));
    StructMetrics(fs);
  }

  /** Looked up by name, `smallInt` sits at byte 20. */
  lemma TestSmallIntOffset()
    ensures OffsetOf(Test().fields, "smallInt") == Some(20)
  {
    OffsetOfNamed(Test().fields, 3);
    TestLayout();
  }

  /** `PaidService` queried through `MemoryLayout` is a reference: 8, 8, 8. */
  lemma PaidServiceMetrics()
    ensures MemoryLayoutOf(PaidService()) == Metrics(8, 8, 8)
  {
    ClassMetrics(PaidServiceFields());
  }

  /** `Date?` takes 8 bytes for the Date and 8 for the presence flag padded to the Date's alignment. */
  lemma OptionalDateMetrics()
    ensures ShapeOf(Optional(Prim(Date))) == Shape(16, 8)
    ensures MemoryLayoutOf(Optional(Prim(Date))) == Metrics(16, 8, 16)
  {
    var d := Prim(Date);
    assert ShapeOf(d) == Shape(8, 8);
    assert ShapeOf(Optional(d)) == Shape(16, 8);
  }

  lemma PaidServiceShapes()
    ensures FieldShapes(PaidServiceFields()) == [Shape(16, 8), Shape(16, 8), Shape(1, 1), Shape(16, 8)]
  {
    OptionalDateMetrics();
  }

  /** The stored properties of `PaidService` laid out as a struct: id@0, name@16, isActive@32,
      expiresAt@40, ending at 56. */
  lemma PaidServiceFieldLayout()
    ensures FieldLayout(PaidServiceFields()) == Layout([0, 16, 32, 40], 56, 8, 56)
  {
    var shapes := [Shape(16, 8), Shape(16, 8), Shape(1, 1), Shape(16, 8)];
    PaidServiceShapes();
    assert IsLayoutOf(shapes, Layout([0, 16, 32, 40], 56, 8, 56)) by {
      assert shapes[0].alignment == 8;
    }
    LayoutUnique(shapes, Layout([0, 16, 32, 40], 56, 8, 56));
  }

  /** `class_getInstanceSize(PaidService.self)` is 72: two Strings (32), the Bool padded to
      8, the `Date?` as 8 + 8, and the 16-byte header. */
  lemma PaidServiceInstanceSize()
    ensures HeapInstanceSize(PaidServiceFields()) == 72
  {
    PaidServiceFieldLayout();
  }
}
