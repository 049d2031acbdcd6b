/** Python values as they appear in a metadata dict, and the flat record the
    engine stores next to each text. */
module Values {
  import opened FileTypes

  /** A Python object held in a metadata dict. Objects whose content the
      model does not inspect keep only the text `str()` gives for them. */
  datatype Value =
    | Str(s: string)
    | Int(i: int)
    | Bool(b: bool)
    | Float(text: string)
    | Enum(ft: FileType)
    | NoneValue
    | Dict(entries: map<string, Value>, text: string)
    | Other(text: string)

  /** A flat metadata record: key to value. */
  type Record = map<string, Value>

  /** `isinstance(v, str)`. A `FileType` member is a `str` too. */
  predicate IsStr(v: Value)
  {
    v.Str? || v.Enum?
  }

  /** The characters of a `str` instance. */
  function StrValue(v: Value): string
    requires IsStr(v)
  {
    if v.Str? then v.s else FileTypes.Value(v.ft)
  }

  /** `isinstance(v, (str, int, float, bool))`: the value kinds the engine
      accepts in a record. */
  predicate IsScalar(v: Value)
  {
    v.Str? || v.Int? || v.Bool? || v.Float? || v.Enum?
  }

  /** Python equality of a value with a string: only `str` instances with
      the same characters compare equal. */
  predicate PyEq(v: Value, s: string)
  {
    IsStr(v) && StrValue(v) == s
  }

  function DigitChar(d: nat): char
    requires d < 10
  {
    "0123456789"[d]
  }

  /** Decimal digits of a natural number. */
  function NatToDecimal(n: nat): (r: string)
    ensures |r| > 0
    ensures '0' <= r[0] <= '9'
    decreases n
  {
    if n < 10 then [DigitChar(n)] else NatToDecimal(n / 10) + [DigitChar(n % 10)]
  }

  /** `str()` of an `int`. */
  function IntToDecimal(i: int): string
  {
    if i < 0 then "-" + NatToDecimal(-i) else NatToDecimal(i)
  }

  /** `str(v)`. */
  function PyStr(v: Value): string
  {
    match v
    case Str(s) => s
    case Int(i) => IntToDecimal(i)
    case Bool(b) => if b then "True" else "False"
    case Float(text) => text
    case Enum(ft) => "FileType." + Name(ft)
    case NoneValue => "None"
    case Dict(_, text) => text
    case Other(text) => text
  }
}
