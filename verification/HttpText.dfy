/** The C string functions with which papp_http.c reads status and header lines, on byte sequences.
    A line may hold a NUL, behind which those functions do not look. */
module HttpText {
  import opened Bytes
  import opened Wrappers

  const SPACE: byte := 32
  const TAB: byte := 9
  const QUOTE: byte := 34

  function Lower(c: byte): byte { if 65 <= c <= 90 then c + 32 else c }

  /** An ASCII literal's bytes. */
  function Ascii(s: string): seq<byte>
  {
    seq(|s|, i requires 0 <= i < |s| => (s[i] as int) % 256)
  }

  /** The line up to its first NUL. */
  function CString(s: seq<byte>): seq<byte>
  {
    if s == [] || s[0] == 0 then [] else [s[0]] + CString(s[1..])
  }

  /** strncasecmp(s, name, strlen(name)) == 0, for a lower-case name */
  predicate StartsNoCase(s: seq<byte>, name: seq<byte>)
  {
    |s| >= |name| && forall i | 0 <= i < |name| :: Lower(s[i]) == name[i]
  }

  predicate Starts(s: seq<byte>, prefix: seq<byte>) { prefix <= s }

  /** strchr: the rest of the string from the first `c` on. */
  function Find(s: seq<byte>, c: byte): (r: Option<seq<byte>>)
    ensures r.Some? ==> 0 < |r.value| <= |s| && r.value[0] == c && r.value == s[|s| - |r.value|..]
    ensures r.Some? ==> c !in s[..|s| - |r.value|]
    ensures r == None ==> c !in s
  {
    if s == [] then None else if s[0] == c then Some(s) else Find(s[1..], c)
  }

  /** strcasestr, for a lower-case needle */
  function FindNoCase(s: seq<byte>, needle: seq<byte>): (r: Option<seq<byte>>)
    ensures r.Some? ==> |r.value| <= |s| && StartsNoCase(r.value, needle)
  {
    if StartsNoCase(s, needle) then Some(s) else if s == [] then None else FindNoCase(s[1..], needle)
  }

  function SkipBlanks(s: seq<byte>): seq<byte>
  {
    if s != [] && (s[0] == SPACE || s[0] == TAB) then SkipBlanks(s[1..]) else s
  }

  /** header_is: the value, when the line is of that header (its name in lower case). */
  function HeaderValue(line: seq<byte>, name: seq<byte>): Option<seq<byte>>
  {
    var s := CString(line);
    if StartsNoCase(s, name) && |s| > |name| && s[|name|] == 58 then Some(SkipBlanks(s[|name| + 1..])) else None
  }

  predicate IsSpace(c: byte) { c == SPACE || 9 <= c <= 13 }

  function SkipSpace(s: seq<byte>): seq<byte>
  {
    if s != [] && IsSpace(s[0]) then SkipSpace(s[1..]) else s
  }

  predicate IsDigit(c: byte) { 48 <= c <= 57 }

  function Decimal(from: nat, s: seq<byte>): nat
    decreases |s|
  {
    if s == [] || !IsDigit(s[0]) then from else Decimal(from * 10 + (s[0] - 48), s[1..])
  }

  /** strtol and strtoll in base 10, with the largest value of their type. */
  function ParseDecimal(text: seq<byte>, most: nat): int
  {
    var s := SkipSpace(text);
    if s != [] && s[0] == 45 then
      var v: int := Decimal(0, s[1..]);
      if v > most + 1 then -(most + 1) else -v
    else
      var v := Decimal(0, if s != [] && s[0] == 43 then s[1..] else s);
      if v > most then most else v
  }

  const LONG_MAX := 0x7fff_ffff
  const LLONG_MAX := 0x7fff_ffff_ffff_ffff

  /** A header line without its trailing blanks. */
  function TrimEnd(s: seq<byte>): (t: seq<byte>)
    ensures t <= s && (t != [] ==> t[|t| - 1] != SPACE && t[|t| - 1] != TAB)
    ensures forall i | |t| <= i < |s| :: s[i] == SPACE || s[i] == TAB
  {
    if s != [] && (s[|s| - 1] == SPACE || s[|s| - 1] == TAB) then TrimEnd(s[..|s| - 1]) else s
  }
}
