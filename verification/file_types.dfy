/** The `FileType` enumeration of the schema module and its lookup by string value. */
module FileTypes {
  import opened Wrappers

  /** The kinds of uploaded document. Each member carries a string value. */
  datatype FileType = PDF | DOCX | TXT

  /** The string value of a member (`FileType.PDF.value == "pdf"`). */
  function Value(ft: FileType): string
  {
    match ft
    case PDF => "pdf"
    case DOCX => "docx"
    case TXT => "txt"
  }

  /** The member's name, as `str()` of a member shows it (`FileType.PDF`). */
  function Name(ft: FileType): string
  {
    match ft
    case PDF => "PDF"
    case DOCX => "DOCX"
    case TXT => "TXT"
  }

  /** Lookup by value, `FileType(s)`: it succeeds exactly when `s` is the
      value of some member, and then yields that member. */
  function FromValue(s: string): (r: Option<FileType>)
    ensures forall ft :: r == Some(ft) <==> Value(ft) == s
  {
    if s == "pdf" then Some(PDF)
    else if s == "docx" then Some(DOCX)
    else if s == "txt" then Some(TXT)
    else None
  }

  /** Lower-case mapping of one character (ASCII letters only). */
  function LowerChar(c: char): char
  {
    if 'A' <= c <= 'Z' then (c as int + 32) as char else c
  }

  /** `str.lower()`, restricted to ASCII letters. */
  function Lower(s: string): (r: string)
    ensures |r| == |s|
  {
    seq(|s|, i requires 0 <= i < |s| => LowerChar(s[i]))
  }

  /** `FileType(s.lower())`: case-insensitive lookup, as the store and read
      paths both perform it. */
  function Parse(s: string): (r: Option<FileType>)
    ensures forall ft :: r == Some(ft) <==> Lower(s) == Value(ft)
  {
    FromValue(Lower(s))
  }

  /** Every member survives being written as its value and parsed back. */
  lemma ParseValue(ft: FileType)
    ensures Parse(Value(ft)) == Some(ft)
  {
  }

  /** The enumeration has exactly three members with distinct values, and
      lookup succeeds for exactly those three strings. */
  lemma ExactlyThreeMembers(s: string)
    ensures {Value(PDF), Value(DOCX), Value(TXT)} == {"pdf", "docx", "txt"}
    ensures |{PDF, DOCX, TXT}| == 3
    ensures forall ft :: Value(ft) in {"pdf", "docx", "txt"}
    ensures FromValue(s).Some? <==> s in {"pdf", "docx", "txt"}
  {
  }

  /** Lookup ignores letter case: an upper-case spelling finds the member. */
  lemma ParseUpperCase()
    ensures Parse("PDF") == Some(PDF)
    ensures Parse("Docx") == Some(DOCX)
    ensures Parse("text") == None
  {
    assert Lower("PDF") == "pdf";
    assert Lower("Docx") == "docx";
    assert Lower("text") == "text";
  }
}
