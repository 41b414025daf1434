/**
 * The R values the encoder reads: the vectors behind a data frame's columns,
 * with R's in-band missing-value sentinels, and the data frame itself.
 * What the encoder learns through TYPEOF, LOGICAL, INTEGER, REAL, STRING_ELT
 * and Rf_length is the constructor and the fields of a Column.
 */
module RObjects {
  import opened Wrappers

  /** A C `int`, the cell type of R's logical and integer vectors. */
  newtype int32 = x: int | -0x8000_0000 <= x < 0x8000_0000

  /** R's NA_INTEGER: the smallest `int`. */
  const NA_INTEGER: int32 := -0x8000_0000
  /** R stores a missing logical as NA_LOGICAL, which equals NA_INTEGER. */
  const NA_LOGICAL: int32 := NA_INTEGER
  const TRUE: int32 := 1
  const FALSE: int32 := 0

  /**
   * One cell of an R double vector, classified the way R's macros see it.
   * A finite value is kept as its IEEE-754 bit pattern, which is all the
   * number formatter is given. R's NA_real_ is a NaN with a particular
   * payload, so it is a NotANumber whose isNA flag is set.
   */
  datatype RealValue =
    | Finite(bits: bv64)
    | Infinite(positive: bool)
    | NotANumber(isNA: bool)

  /** R_FINITE */
  predicate IsFinite(x: RealValue) { x.Finite? }
  /** ISNA: only R's own NA payload */
  predicate IsNA(x: RealValue) { x.NotANumber? && x.isNA }
  /** ISNAN: every NaN, R's NA included */
  predicate IsNaN(x: RealValue) { x.NotANumber? }

  /**
   * A column of a data frame. The four vector types the encoder knows, and
   * any other R vector type, of which only the type name (as Rf_type2char
   * gives it) and the length matter. A missing string (NA_STRING) is None.
   */
  datatype Column =
    | Logical(lgl: seq<int32>)
    | Integer(ints: seq<int32>)
    | Double(reals: seq<RealValue>)
    | Character(strs: seq<Option<string>>)
    | Unsupported(typeName: string, len: nat)

  /** Rf_length */
  function Length(col: Column): nat
  {
    match col
    case Logical(v) => |v|
    case Integer(v) => |v|
    case Double(v) => |v|
    case Character(v) => |v|
    case Unsupported(_, len) => len
  }

  predicate Supported(col: Column) { !col.Unsupported? }

  /**
   * Every index below n can be read from the column. A column of an
   * unsupported type is never indexed: the encoder fails on it first.
   */
  predicate Covers(col: Column, n: nat) { col.Unsupported? || n <= Length(col) }

  /** Cell i of the column can be read. */
  predicate InRange(col: Column, i: nat) { Covers(col, i + 1) }

  /** Cell i holds R's missing value for the column's type. */
  predicate IsMissing(col: Column, i: nat)
    requires InRange(col, i)
  {
    match col
    case Logical(v) => v[i] == NA_LOGICAL
    case Integer(v) => v[i] == NA_INTEGER
    case Double(v) => IsNA(v[i])
    case Character(v) => v[i].None?
    case Unsupported(_, _) => false
  }

  /** A data frame: a list of columns and its "names" attribute. */
  datatype DataFrame = DataFrame(names: seq<Option<string>>, columns: seq<Column>)

  /** The row count the encoder uses: the length of the first column. */
  function RowCount(df: DataFrame): nat
    requires |df.columns| > 0
  {
    Length(df.columns[0])
  }
}
