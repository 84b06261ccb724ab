/** The string primitives of JavaScript that the translation code leans on. */
module JsText {
  import opened Outcome

  /** What `\s` matches and `trim` removes: WhiteSpace and LineTerminator of ECMAScript. */
  predicate IsSpace(c: char) {
    || c in {'\t', '\n', '\U{000B}', '\U{000C}', '\r', ' ', '\U{00A0}', '\U{1680}', '\U{2028}', '\U{2029}'}
    || '\U{2000}' <= c <= '\U{200A}'
    || c in {'\U{202F}', '\U{205F}', '\U{3000}', '\U{FEFF}'}
  }

  /** What `.` does not match and what `^` and `$` look for under the `m` flag. */
  predicate IsLineEnd(c: char) {
    c in {'\n', '\r', '\U{2028}', '\U{2029}'}
  }

  function SkipSpace(s: string): (rest: string)
    ensures |rest| <= |s|
    ensures rest == "" || !IsSpace(rest[0])
    ensures s == "" || !IsSpace(s[0]) ==> rest == s
  {
    if s == "" || !IsSpace(s[0]) then s else SkipSpace(s[1..])
  }

  function DropSpaceAtEnd(s: string): (rest: string)
    ensures rest <= s
    ensures rest == "" || !IsSpace(rest[|rest| - 1])
  {
    if s == "" || !IsSpace(s[|s| - 1]) then s else DropSpaceAtEnd(s[..|s| - 1])
  }

  function Trim(s: string): string {
    DropSpaceAtEnd(SkipSpace(s))
  }

  predicate StartsWith(s: string, prefix: string) {
    prefix <= s
  }

  /** `s.replace(/c/g, replacement)` for a single character. */
  function ReplaceChar(s: string, c: char, replacement: string): string {
    if s == "" then ""
    else (if s[0] == c then replacement else s[..1]) + ReplaceChar(s[1..], c, replacement)
  }

  function IndexOf(s: string, c: char, from: nat): (i: Option<nat>)
    requires from <= |s|
    ensures i.Some? ==> from <= i.value < |s| && s[i.value] == c && forall j :: from <= j < i.value ==> s[j] != c
    ensures i.None? ==> forall j :: from <= j < |s| ==> s[j] != c
    decreases |s| - from
  {
    if from == |s| then None
    else if s[from] == c then Some(from)
    else IndexOf(s, c, from + 1)
  }

  lemma {:induction false} IndexIs(s: string, c: char, from: nat, at: nat)
    requires from <= at < |s| && s[at] == c
    requires forall j :: from <= j < at ==> s[j] != c
    ensures IndexOf(s, c, from) == Some(at)
    decreases at - from
  {
    if from < at {
      IndexIs(s, c, from + 1, at);
    }
  }

  function LastIndexOf(s: string, c: char): (i: Option<nat>)
    ensures i.Some? ==> i.value < |s| && s[i.value] == c && forall j :: i.value < j < |s| ==> s[j] != c
    ensures i.None? ==> forall j :: 0 <= j < |s| ==> s[j] != c
  {
    if s == "" then None
    else if s[|s| - 1] == c then Some(|s| - 1)
    else LastIndexOf(s[..|s| - 1], c)
  }

  /** `s.split(c)`. */
  function Split(s: string, c: char): (parts: seq<string>)
    ensures parts != []
    ensures forall part :: part in parts ==> c !in part
  {
    if s == "" then [""]
    else
      var rest := Split(s[1..], c);
      if s[0] == c then [""] + rest else [s[..1] + rest[0]] + rest[1..]
  }

  /** `parts.join(glue)`. */
  function Join(parts: seq<string>, glue: string): string {
    if parts == [] then ""
    else if |parts| == 1 then parts[0]
    else parts[0] + (glue + Join(parts[1..], glue))
  }
}
