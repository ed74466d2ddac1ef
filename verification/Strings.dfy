/** The values and operations of JavaScript that the modelled code leans on. */
module Strings {

  datatype Option<+T> = None | Some(value: T)

  /** An awaited call: it returns a value or throws. */
  datatype Outcome<+T> = Returned(value: T) | Threw

  function Min(a: nat, b: nat): nat { if a <= b then a else b }

  /** White space and line terminators, as String.prototype.trim removes them. */
  predicate IsSpace(c: char) {
    || c == ' ' || '\t' <= c <= '\r'
    || c in {'\U{A0}', '\U{FEFF}', '\U{1680}', '\U{2028}', '\U{2029}', '\U{202F}', '\U{205F}', '\U{3000}'}
    || '\U{2000}' <= c <= '\U{200A}'
  }

  function TrimStart(s: string): string {
    if s != "" && IsSpace(s[0]) then TrimStart(s[1..]) else s
  }

  function TrimEnd(s: string): string {
    if s != "" && IsSpace(s[|s| - 1]) then TrimEnd(s[..|s| - 1]) else s
  }

  function Trim(s: string): string { TrimEnd(TrimStart(s)) }

  predicate Trimmed(s: string) {
    s != "" ==> !IsSpace(s[0]) && !IsSpace(s[|s| - 1])
  }

  lemma {:induction false} TrimStartMeaning(s: string)
    ensures TrimStart(s) != "" ==> !IsSpace(TrimStart(s)[0])
    ensures |TrimStart(s)| <= |s| && TrimStart(s) == s[|s| - |TrimStart(s)|..]
    ensures forall i :: 0 <= i < |s| - |TrimStart(s)| ==> IsSpace(s[i])
  {
    hide IsSpace;
    if s != "" && IsSpace(s[0]) {
      TrimStartMeaning(s[1..]);
      assert forall i :: 1 <= i < |s| ==> s[i] == s[1..][i - 1];
    }
  }

  lemma {:induction false} TrimEndMeaning(s: string)
    ensures TrimEnd(s) != "" ==> !IsSpace(TrimEnd(s)[|TrimEnd(s)| - 1])
    ensures TrimEnd(s) <= s && forall i :: |TrimEnd(s)| <= i < |s| ==> IsSpace(s[i])
    ensures s != "" && !IsSpace(s[0]) ==> TrimEnd(s) != ""
  {
    hide IsSpace;
    if s != "" && IsSpace(s[|s| - 1]) { TrimEndMeaning(s[..|s| - 1]); }
  }

  /** t is s without the white space before position i and from j on. */
  predicate TrimmedAt(s: string, t: string, i: nat, j: nat) {
    && i <= j <= |s| && t == s[i..j] && Trimmed(t)
    && forall k :: 0 <= k < |s| && (k < i || j <= k) ==> IsSpace(s[k])
  }

  /** Trimming leaves exactly the strings without white space at either end unchanged. */
  lemma TrimMeaning(s: string)
    ensures Trimmed(Trim(s)) && |Trim(s)| <= |s|
    ensures Trimmed(s) <==> Trim(s) == s
  {
    TrimStartMeaning(s);
    TrimEndMeaning(TrimStart(s));
  }

  /** Trimming takes white space off both ends, all of it and nothing else. */
  lemma TrimIsExact(s: string)
    ensures exists i, j :: TrimmedAt(s, Trim(s), i, j)
    ensures forall t, i, j :: TrimmedAt(s, t, i, j) ==> t == Trim(s)
  {
    hide TrimStart, TrimEnd, IsSpace;
    TrimMeaning(s);
    TrimStartMeaning(s);
    TrimEndMeaning(TrimStart(s));
    var i := |s| - |TrimStart(s)|;
    var j := i + |Trim(s)|;
    assert forall k :: j <= k < |s| ==> s[k] == TrimStart(s)[k - i];
    assert TrimmedAt(s, Trim(s), i, j);
    forall t, i', j' | TrimmedAt(s, t, i', j') ensures t == Trim(s) { OneTrim(s, t, i', j', Trim(s), i, j); }
  }

  lemma OneTrim(s: string, t: string, i: nat, j: nat, t': string, i': nat, j': nat)
    requires TrimmedAt(s, t, i, j) && TrimmedAt(s, t', i', j')
    ensures t == t'
  {
    if t != "" { assert t[0] == s[i] && t[|t| - 1] == s[j - 1]; }
    if t' != "" { assert t'[0] == s[i'] && t'[|t'| - 1] == s[j' - 1]; }
  }

  predicate OccursAt(s: string, t: string, i: int) {
    0 <= i <= |s| - |t| && s[i..i + |t|] == t
  }

  predicate Includes(s: string, t: string) {
    exists i | 0 <= i <= |s| :: OccursAt(s, t, i)
  }

  predicate FreeOf(s: string, cs: set<char>) {
    forall i :: 0 <= i < |s| ==> s[i] !in cs
  }

  function Join(parts: seq<string>, separator: string): string {
    if parts == [] then ""
    else if |parts| == 1 then parts[0]
    else parts[0] + separator + Join(parts[1..], separator)
  }
}
