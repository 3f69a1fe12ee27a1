# Memory layout of Swift structs and classes

This project models the layout rule that the MemoryLayout playground demonstrates. Swift places a
struct's stored properties in declared order. Each property goes at the smallest multiple of its
alignment that is not below the end of the previous property. The struct's `size` is where the last
property ends. Its `alignment` is the largest property alignment. Its `stride` is the size rounded up
to that alignment. A class is a reference: queried through `MemoryLayout` it is always 8 bytes,
8-aligned, stride 8, and a class-typed property takes 8 bytes in whatever contains it. The heap
instance that `class_getInstanceSize` measures is a 16-byte header (isa pointer and reference count)
followed by the class's stored properties. An optional `T?` is laid out as the two-field struct
`{present: Bool, payload: T}`, which gives the "8 Date + 8 Optional" accounting of `PaidService`.

Modules:

- `Alignment` (alignment.dfy): positive alignments and rounding a byte count up to a multiple of one.
- `Primitives` (primitives.dfy): the primitive table. String is 16/8, Int and Int64 are 8/8, Int8 is 1/1,
  Int16 is 2/2, Int32 is 4/4, Bool is 1/1, Float is 4/4, Double is 8/8, Date is 8/8 and an array `[T]` is 8/8.
- `Engine` (engine.dfy): the placement fold over field footprints. It is paired with a declarative
  statement of the rule, and the two are proved to agree in both directions.
- `TypeLayout` (types.dfy): type descriptors (primitive, struct, class), `MemoryLayout<T>`,
  `class_getInstanceSize`, `T?`, and the offset of a field looked up by name.
- `Playground` (playground.dfy): the structs and the class declared in the playground, each with a
  lemma that derives the numbers the playground records.

Points where the model fixes something the playground leaves open:

- Alignments of Int8, Float and Double are not written in the playground, which records only their
  sizes. The model uses 1, 4 and 8, the 64-bit Swift values.
- `MemoryLayout<Array<Bool>>.size` has no recorded value at line 44. The comment at line 110 gives 8.
- Date is not declared in the playground. It is a primitive 8/8 here, because Foundation's Date wraps a single Double.
- Swift itself puts an optional's tag after the payload. The model follows the playground's "8 Date +
  8 Optional (1 + 7 alignment)" accounting instead: a 16-byte `{present, payload}` struct. For
  `PaidService` both give the recorded 72.
- `class_getInstanceSize` is modelled as 16 plus the stride of the stored properties. For `PaidService`
  the size and the stride of the stored properties are both 56, so the recorded 72 does not depend on that choice.
- A struct with no stored properties gets size 0, alignment 1 and stride 0. The lemma
  `TypeLayout.EmptyStructMetrics` states this. Swift itself reports stride 1 for such a struct.

## Model

| member | source | states |
|---|---|---|
| `Primitives.ShapeOfKind` | MemoryLayout.playground/Contents.swift:25-44 | every primitive's alignment divides the 8-byte word, its size is positive and a multiple of its alignment |
| `Primitives.AlignmentMatchesSize` | MemoryLayout.playground/Contents.swift:84-90 | alignment equals size for every primitive except String, which is two words aligned like one |
| `Alignment.RoundUp` | MemoryLayout.playground/Contents.swift:104 | the result is a multiple of the alignment, not below the input, and less than one alignment above it |
| `Alignment.RoundUpUnique` | MemoryLayout.playground/Contents.swift:104 | the smallest multiple of the alignment not below n is unique, so any value with that property is `RoundUp` |
| `Alignment.RoundUpShift` | MemoryLayout.playground/Contents.swift:139 | rounding commutes with a shift by a multiple of the alignment |
| `Engine.PlaceFrom` | MemoryLayout.playground/Contents.swift:109-112 | the running-cursor fold yields one offset per field |
| `Engine.PlaceFromPlaces` | MemoryLayout.playground/Contents.swift:109-112 | the fold puts every field at the smallest multiple of its alignment not below the previous field's end, and stops where the last field ends |
| `Engine.PlaceFromMaxAlign` | MemoryLayout.playground/Contents.swift:103 | the fold's running alignment is at least every field alignment and equals one of them or its start value |
| `Engine.InlineLayout` | MemoryLayout.playground/Contents.swift:99-104 | stride is a multiple of alignment, at least size and less than size + alignment; one offset per field |
| `Engine.InlineLayoutIsLayout` | MemoryLayout.playground/Contents.swift:108-112 | the fold satisfies the declarative layout rule: placement, size with no trailing padding, largest alignment, rounded stride |
| `Engine.LayoutUnique` | MemoryLayout.playground/Contents.swift:108-122 | any layout satisfying the declarative rule is the fold's result, so the rule determines offsets, size, alignment and stride |
| `Engine.FieldsDisjoint` | MemoryLayout.playground/Contents.swift:109-112 | every field ends no later than each later field starts, and no later than the struct's size |
| `Engine.FieldsAligned` | MemoryLayout.playground/Contents.swift:92 | every field's offset is a multiple of its own alignment |
| `TypeLayout.FieldAddressesAligned` | MemoryLayout.playground/Contents.swift:92 | a struct stored at a multiple of its alignment has every stored property at a multiple of that property's own alignment, so each property is read in one aligned access |
| `Engine.AlignmentIsLargest` | MemoryLayout.playground/Contents.swift:103 | the struct's alignment is at least every field alignment and equals one of them (1 without fields) |
| `Engine.PlaceFromShift` | MemoryLayout.playground/Contents.swift:139 | starting the fold k bytes later, with k a multiple of every alignment, shifts every offset and the end by k |
| `Engine.PlaceFromMaxAlignIrrelevant` | MemoryLayout.playground/Contents.swift:109-112 | the starting alignment of the fold changes neither offsets nor end, only the running maximum |
| `TypeLayout.ShapeOf` | MemoryLayout.playground/Contents.swift:103-112 | the footprint of any type, nested structs included, has an alignment dividing the word |
| `TypeLayout.FieldShapes` | MemoryLayout.playground/Contents.swift:108-112 | one footprint per field, in declared order, each the footprint of that field's type |
| `TypeLayout.MemoryLayoutOf` | MemoryLayout.playground/Contents.swift:72 | stride is a multiple of alignment, at least size and less than size + alignment; alignment divides the word |
| `TypeLayout.FieldLayout` | MemoryLayout.playground/Contents.swift:108-112 | the layout of a list of stored properties satisfies the declarative layout rule: placement, size with no trailing padding, largest alignment, rounded stride |
| `TypeLayout.HeapInstanceSize` | MemoryLayout.playground/Contents.swift:138-141 | the instance size is at least the 16-byte header plus the end of the last stored property, less than one property alignment beyond that, and the part after the header is a whole number of alignment units |
| `TypeLayout.Optional` | MemoryLayout.playground/Contents.swift:130 | `T?` has the payload's alignment and occupies the payload's size plus one payload-alignment unit for the presence flag |
| `TypeLayout.OffsetOf` | MemoryLayout.playground/Contents.swift:108-112 | None exactly when no stored property has the name; otherwise the layout offset of a property with that name |
| `TypeLayout.EmptyStructMetrics` | MemoryLayout.playground/Contents.swift:99-104 | a struct without stored properties is size 0, alignment 1, stride 0 (the policy chosen where the playground says nothing) |
| `TypeLayout.StructMetrics` | MemoryLayout.playground/Contents.swift:99-104 | a struct's `MemoryLayout` is its inline layout, which satisfies the layout rule |
| `TypeLayout.ClassMetrics` | MemoryLayout.playground/Contents.swift:133-137 | a class queried through `MemoryLayout` is 8, 8, 8 whatever its stored properties |
| `TypeLayout.ClassFieldIsHandle` | MemoryLayout.playground/Contents.swift:137 | replacing the stored properties of a class-typed field leaves the containing layout unchanged |
| `TypeLayout.HeapInstanceLayout` | MemoryLayout.playground/Contents.swift:138-141 | the header followed by the stored properties puts each property 16 bytes after its struct offset, is 8-aligned, and the instance size covers all properties and is less than one alignment past their end |
| `TypeLayout.HeaderPlacement` | MemoryLayout.playground/Contents.swift:130 | fields whose alignments divide the word, placed after a 16/8 header, sit 16 bytes further on and the whole is 8-aligned |
| `TypeLayout.HeaderShift` | MemoryLayout.playground/Contents.swift:139 | fields placed from cursor 16 sit at their struct offsets plus 16 and end 16 bytes after the struct size |
| `TypeLayout.HeaderFirst` | MemoryLayout.playground/Contents.swift:130 | the header placed first sits at offset 0 and the fold continues at cursor 16 |
| `TypeLayout.OptionalMetrics` | MemoryLayout.playground/Contents.swift:130 | `T?` puts the payload at its own alignment; size is payload size + payload alignment, alignment is the payload's |
| `TypeLayout.TagThenPayload` | MemoryLayout.playground/Contents.swift:130 | a one-byte tag followed by a payload puts the payload at its alignment |
| `TypeLayout.IndexOf` | MemoryLayout.playground/Contents.swift:108-112 | returns the first field with the name, and None exactly when no field has it |
| `TypeLayout.OffsetOfNamed` | MemoryLayout.playground/Contents.swift:108-112 | with unique names, looking a field up by name gives the offset the layout assigns it |
| `TypeLayout.OffsetOfUnknown` | MemoryLayout.playground/Contents.swift:108-112 | looking up a name no field has gives None |
| `Playground.FullResume` | MemoryLayout.playground/Contents.swift:10-14 | the struct `FullResume { id: String; age: Int; hashVehicle: Bool }`, stored inline; its numbers are in `Playground.FullResumeLayout` |
| `Playground.FullResumeWithSwapBool` | MemoryLayout.playground/Contents.swift:50-54 | the same properties with the Bool first; its numbers are in `Playground.SwapBoolLayout` |
| `Playground.ShortResume` | MemoryLayout.playground/Contents.swift:66-69 | the struct `ShortResume { age: Int32; hashVehicle: Bool }`; its numbers are in `Playground.ShortResumeLayout` |
| `Playground.ShortResume2` | MemoryLayout.playground/Contents.swift:94-97 | the struct `ShortResume2 { age: Int; hashVehicle: Bool }`; its numbers are in `Playground.ShortResume2Layout` |
| `Playground.ShortResume2WithInt16` | MemoryLayout.playground/Contents.swift:103 | `ShortResume2` with `Int16` in place of `Int`, the variant the text describes; its alignment is in `Playground.ShortResume2Int16Layout` |
| `Playground.Test` | MemoryLayout.playground/Contents.swift:108-113 | the struct `Test { firstBool: Bool; array: [Bool]; secondBool: Bool; smallInt: Int32 }`; its numbers are in `Playground.TestLayout` |
| `Playground.PaidServiceFields` | MemoryLayout.playground/Contents.swift:126-131 | the stored properties of `PaidService`: two Strings, a Bool and a `Date?`; laid out in `Playground.PaidServiceFieldLayout` |
| `Playground.PaidService` | MemoryLayout.playground/Contents.swift:126-131 | `PaidService` as a class, so a reference; its numbers are in `Playground.PaidServiceMetrics` and `Playground.PaidServiceInstanceSize` |
| `Playground.PrimitiveSizes` | MemoryLayout.playground/Contents.swift:25-44 | String 16/8, Int 8/8, Int8 1, Int16 2/2, Int32 4/4, Int64 equal to Int, Bool 1/1, Float 4, Double 8, `[Bool]` 8/8/8 |
| `Playground.FullResumeLayout` | MemoryLayout.playground/Contents.swift:10-20 | `FullResume` places id@0, age@16, hashVehicle@24; size 25, alignment 8, stride 32 |
| `Playground.SwapBoolLayout` | MemoryLayout.playground/Contents.swift:50-58 | with the Bool first the offsets are 0, 8, 24 and the size is 32, larger than `FullResume`'s |
| `Playground.ShortResumeLayout` | MemoryLayout.playground/Contents.swift:66-79 | `ShortResume` has size 5, alignment 4, stride 8, so 3 bytes separate consecutive values |
| `Playground.ShortResume2Layout` | MemoryLayout.playground/Contents.swift:92-101 | `ShortResume2` has size 9, alignment 8, stride 16, the same as `FullResume` without its String |
| `Playground.ShortResume2Int16Layout` | MemoryLayout.playground/Contents.swift:103 | with Int16 instead of Int the struct's alignment is 2 |
| `Playground.TestLayout` | MemoryLayout.playground/Contents.swift:108-122 | `Test` places its fields at 0, 8, 16, 20; size 24, alignment 8, stride 24 |
| `Playground.TestSmallIntOffset` | MemoryLayout.playground/Contents.swift:112 | `smallInt` looked up by name is at byte 20 |
| `Playground.PaidServiceMetrics` | MemoryLayout.playground/Contents.swift:133-137 | `PaidService` queried through `MemoryLayout` is 8, 8, 8 |
| `Playground.OptionalDateMetrics` | MemoryLayout.playground/Contents.swift:130 | `Date?` is 16 bytes, 8-aligned, stride 16 |
| `Playground.PaidServiceShapes` | MemoryLayout.playground/Contents.swift:126-131 | the stored properties of `PaidService` have footprints 16/8, 16/8, 1/1, 16/8 |
| `Playground.PaidServiceFieldLayout` | MemoryLayout.playground/Contents.swift:127-130 | the stored properties sit at 0, 16, 32, 40 and end at 56 |
| `Playground.PaidServiceInstanceSize` | MemoryLayout.playground/Contents.swift:139-141 | `class_getInstanceSize(PaidService.self)` is 72 |

## Left out

- `import UIKit`, `greeting`, the `withUnsafeBytes` call and its `print` (lines 1-3, 58-61): UI and output only, no layout logic.
- The byte diagrams of values in memory (lines 75-77, 117): they show runtime pointer bytes and value encodings, not the layout rule.
- The calls into `MemoryLayout` and `class_getInstanceSize` themselves: these are compiler and Objective-C runtime facilities. The model states the arithmetic they report.
- Values of the types, Float and Double included: only sizes and alignments matter, and there is no floating point.
- Swift's own Optional tag placement and extra-inhabitant packing: the model uses the `{present, payload}` struct of the playground's accounting.
- Cyclic value types and unknown primitive kinds: descriptors are an inductive datatype over a closed set of kinds, so neither can be written. A class-typed field is a leaf contributing 8/8.
- Registering primitives at run time, conflicting registrations, memoisation and locking: the playground has none of these. The primitive table is a fixed function.
- Types with alignment above 8 (SIMD vectors and the like): no such type appears. `TypeLayout.HeapInstanceLayout` relies on every alignment dividing the word.
- `TypeLayout.HeapInstanceSize` is 16 plus the padded size of the stored properties. It is not rounded further to the heap's 8-byte granularity, because the playground records no class where that would matter.
