/** The primitive kinds the playground measures, with the size and alignment a
    64-bit Swift target gives each one. */
module Primitives {
  import opened Alignment

  /** A field's footprint: how many bytes it occupies and the boundary its address must respect. */
  datatype Shape = Shape(size: nat, alignment: Pos)

  /** The pointer-sized handle a reference (or an array buffer pointer) occupies. */
  const Word: Shape := Shape(8, 8)

  datatype Kind =
    | Str        // String: pointer + length/flags metadata
    | Int        // Int: the native word
    | Int8
    | Int16
    | Int32
    | Int64
    | Bool
    | Float
    | Double
    | Date       // Foundation's Date, a wrapper of one Double
    | ArrayOf    // [T]: a single pointer to a heap buffer, whatever T is

  /** The primitive table; every alignment divides the word size and every size is a
      multiple of its alignment. */
  function ShapeOfKind(k: Kind): (s: Shape)
    ensures DividesWord(s.alignment)
    ensures s.size > 0 && s.size % s.alignment == 0
  {
    match k
    case Str => Shape(16, 8)
    case Int => Word
    case Int8 => Shape(1, 1)
    case Int16 => Shape(2, 2)
    case Int32 => Shape(4, 4)
    case Int64 => Word
    case Bool => Shape(1, 1)
    case Float => Shape(4, 4)
    case Double => Word
    case Date => Word
    case ArrayOf => Word
  }

  /** For every primitive except String, the alignment equals the size;
      String is two words aligned like one. */
  lemma AlignmentMatchesSize(k: Kind)
    ensures k != Str ==> ShapeOfKind(k).alignment == ShapeOfKind(k).size
    ensures k == Str ==> ShapeOfKind(k).size == 2 * ShapeOfKind(k).alignment
  {
  }
}
