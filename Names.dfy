/**
 * The snake_case name grammar that property names and kind names must follow
 * (LimeBean/Bean.cs:15 and ValidateNameFormat at LimeBean/Bean.cs:112-118).
 */
module Names {
  import opened Wrappers

  /** One character of the grammar `[a-z0-9_]`. */
  predicate IsNameChar(c: char) {
    ('a' <= c <= 'z') || ('0' <= c <= '9') || c == '_'
  }

  /** .NET's char.IsWhiteSpace: the Unicode space, line and paragraph separators plus U+0009..U+000D and U+0085. */
  predicate IsWhiteSpace(c: char) {
    ('\U{9}' <= c <= '\U{D}') || c == ' ' || c == '\U{85}' || c == '\U{A0}' || c == '\U{1680}'
    || ('\U{2000}' <= c <= '\U{200A}') || c == '\U{2028}' || c == '\U{2029}'
    || c == '\U{202F}' || c == '\U{205F}' || c == '\U{3000}'
  }

  /** Reference definition: a non-empty string of grammar characters only. */
  predicate IsValidName(s: string) {
    |s| > 0 && forall i :: 0 <= i < |s| ==> IsNameChar(s[i])
  }

  /** Reference definition: empty, or made of white space only. */
  predicate IsBlank(s: string) {
    forall i :: 0 <= i < |s| ==> IsWhiteSpace(s[i])
  }

  /** String.IsNullOrWhiteSpace on a non-null string, scanning from the front. */
  function IsNullOrWhiteSpace(s: string): (r: bool)
    ensures r <==> IsBlank(s)
  {
    if s == [] then true else IsWhiteSpace(s[0]) && IsNullOrWhiteSpace(s[1..])
  }

  /** True when every character of `s` is a grammar character. */
  function AllNameChars(s: string): (r: bool)
    ensures r <==> forall i :: 0 <= i < |s| ==> IsNameChar(s[i])
  {
    if s == [] then true else IsNameChar(s[0]) && AllNameChars(s[1..])
  }

  /** What `^[a-z\d_]+$` was meant to accept: the whole string is one or more grammar characters. */
  function MatchesNamePattern(s: string): (r: bool)
    ensures r <==> IsValidName(s)
  {
    |s| > 0 && AllNameChars(s)
  }

  /**
   * What `^[a-z\d_]+$` accepts under .NET's default options: `$` also matches
   * just before a final '\n', so one trailing newline is let through.
   */
  function IsMatchAsWritten(s: string): (r: bool)
    ensures r <==> IsValidName(s) || (|s| > 0 && s[|s| - 1] == '\n' && IsValidName(s[..|s| - 1]))
  {
    MatchesNamePattern(s) || (|s| > 0 && s[|s| - 1] == '\n' && MatchesNamePattern(s[..|s| - 1]))
  }

  /** The two exceptions ValidateNameFormat throws: ArgumentException and FormatException. */
  datatype NameError = EmptyName | InvalidFormat(name: string)

  const FormatPrefix: string := "Invalid name format: "
  const FormatSuffix: string := ". Names must be in snake_case."

  /** The exception message; a FormatException's message quotes the rejected name. */
  function Message(e: NameError): (m: string)
    ensures e.InvalidFormat? ==>
              |m| >= |FormatPrefix| + |e.name| && m[|FormatPrefix|..|FormatPrefix| + |e.name|] == e.name
    ensures e.InvalidFormat? ==> m[..|FormatPrefix|] == FormatPrefix
  {
    match e
    case EmptyName => "Name cannot be empty"
    case InvalidFormat(n) => FormatPrefix + n + FormatSuffix
  }

  /**
   * ValidateNameFormat with the intended grammar: passes exactly the valid
   * names; a blank name is an EmptyName error, any other name an
   * InvalidFormat error carrying that name.
   */
  function ValidateNameFormat(name: string): (r: Outcome<NameError>)
    ensures r.Pass? <==> IsValidName(name)
    ensures r == Fail(EmptyName) <==> IsBlank(name)
    ensures r == Fail(InvalidFormat(name)) <==> !IsBlank(name) && !IsValidName(name)
  {
    if IsNullOrWhiteSpace(name) then Fail(EmptyName)
    else if MatchesNamePattern(name) then Pass
    else Fail(InvalidFormat(name))
  }

  /** ValidateNameFormat as the source writes it, with the .NET meaning of `$`. */
  function ValidateNameFormatAsWritten(name: string): (r: Outcome<NameError>)
    ensures r.Pass? <==> IsMatchAsWritten(name)
    ensures r == Fail(EmptyName) <==> IsBlank(name)
    ensures r == Fail(InvalidFormat(name)) <==> !IsBlank(name) && !IsMatchAsWritten(name)
  {
    if IsNullOrWhiteSpace(name) then Fail(EmptyName)
    else if IsMatchAsWritten(name) then Pass
    else Fail(InvalidFormat(name))
  }

  /**
   * The two validators differ exactly on names that are a valid name followed
   * by one '\n': the source accepts those, the intended grammar does not.
   */
  lemma AsWrittenAcceptsTrailingNewline(name: string)
    ensures ValidateNameFormatAsWritten(name).Pass? <==>
      ValidateNameFormat(name).Pass?
      || (|name| > 0 && name[|name| - 1] == '\n' && ValidateNameFormat(name[..|name| - 1]).Pass?)
  {
  }

  /** The concrete name that shows the discrepancy: "id\n". */
  lemma TrailingNewlineCounterexample()
    ensures ValidateNameFormatAsWritten("id\n") == Pass
    ensures ValidateNameFormat("id\n") == Fail(InvalidFormat("id\n"))
  {
  }
}
