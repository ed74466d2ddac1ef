/** Label sets and their printed form, which keys the series of every metric. */
module Labels {
  import opened Strings
  import opened Sorting
  import opened JsMap

  /** A Record<string, string>: distinct names in insertion order. */
  type Labels = Entries<string>

  // ----- Printing ----------------------------------------------------------------------------

  function ReplaceAll(s: string, c: char, with: string): string {
    if s == "" then "" else (if s[0] == c then with else [s[0]]) + ReplaceAll(s[1..], c, with)
  }

  /** Three sequential replacements: backslash, line feed, double quote. */
  function EscapeLabelValue(value: string): string {
    ReplaceAll(ReplaceAll(ReplaceAll(value, '\\', "\\\\"), '\n', "\\n"), '"', "\\\"")
  }

  predicate LexLe(a: string, b: string) {
    a == "" || (b != "" && (a[0] < b[0] || (a[0] == b[0] && LexLe(a[1..], b[1..]))))
  }

  /** labels[key] ?? "" */
  function Lookup(labels: Labels, key: string): string {
    match Get(labels, key)
    case Some(v) => v
    case None => ""
  }

  function SortedKeys(labels: Labels): seq<string> { Sort(Keys(labels), LexLe) }

  function Part(labels: Labels, key: string): string {
    key + "=\"" + EscapeLabelValue(Lookup(labels, key)) + "\""
  }

  function Parts(labels: Labels, keys: seq<string>): seq<string> {
    seq(|keys|, i requires 0 <= i < |keys| => Part(labels, keys[i]))
  }

  function RenderLabels(labels: Labels): string {
    var keys := SortedKeys(labels);
    if keys == [] then "" else "{" + Join(Parts(labels, keys), ",") + "}"
  }

  function SeriesKey(labels: Labels): string { RenderLabels(labels) }

  // ----- Reading back ------------------------------------------------------------------------

  /** A label value up to its closing quote, as the exposition format defines the escapes. */
  function ParseValue(s: string): Option<(string, string)> {
    if s == "" then None
    else if s[0] == '"' then Some(("", s[1..]))
    else if s[0] == '\\' then
      if |s| == 1 then None
      else
        var c := if s[1] == 'n' then '\n' else s[1];
        match ParseValue(s[2..])
        case None => None
        case Some((v, rest)) => Some(([c] + v, rest))
    else
      match ParseValue(s[1..])
      case None => None
      case Some((v, rest)) => Some(([s[0]] + v, rest))
  }

  function IndexOf(s: string, c: char): (i: nat)
    ensures i <= |s|
    ensures i < |s| ==> s[i] == c
    ensures forall j :: 0 <= j < i ==> s[j] != c
  {
    if s == "" || s[0] == c then 0 else 1 + IndexOf(s[1..], c)
  }

  lemma {:induction false} ParseValueShortens(s: string)
    ensures ParseValue(s).Some? ==> |ParseValue(s).value.1| < |s|
  {
    if s != "" && s[0] == '\\' && |s| > 1 {
      ParseValueShortens(s[2..]);
    } else if s != "" && s[0] != '"' {
      ParseValueShortens(s[1..]);
    }
  }

  /** name="value" pairs separated by commas, up to the closing brace. */
  function ParsePairs(s: string): Option<Labels>
    decreases |s|
  {
    var i := IndexOf(s, '=');
    if i + 2 > |s| || s[i + 1] != '"' then None
    else
      ParseValueShortens(s[i + 2..]);
      match ParseValue(s[i + 2..])
      case None => None
      case Some((value, rest)) =>
        if rest == "}" then Some([(s[..i], value)])
        else if rest == "" || rest[0] != ',' then None
        else
          match ParsePairs(rest[1..])
          case None => None
          case Some(more) => Some([(s[..i], value)] + more)
  }

  function ParseLabels(s: string): Option<Labels> {
    if s == "" then Some([]) else if s[0] == '{' then ParsePairs(s[1..]) else None
  }

  // ----- Order -------------------------------------------------------------------------------

  lemma {:induction false} LexTotal(a: string, b: string)
    ensures LexLe(a, b) || LexLe(b, a)
    ensures LexLe(a, b) && LexLe(b, a) ==> a == b
  {
    if a != "" && b != "" {
      LexTotal(a[1..], b[1..]);
      assert a == [a[0]] + a[1..] && b == [b[0]] + b[1..];
    }
  }

  lemma {:induction false} LexTransitive(a: string, b: string, c: string)
    requires LexLe(a, b) && LexLe(b, c)
    ensures LexLe(a, c)
  {
    if a != "" && a[0] == b[0] == c[0] { LexTransitive(a[1..], b[1..], c[1..]); }
  }

  lemma LexIsTotalOrder()
    ensures TotalPreorder(LexLe)
    ensures forall a, b :: LexLe(a, b) && LexLe(b, a) ==> a == b
  {
    forall a, b ensures LexLe(a, b) || LexLe(b, a) ensures LexLe(a, b) && LexLe(b, a) ==> a == b {
      LexTotal(a, b);
    }
    forall a, b, c | LexLe(a, b) && LexLe(b, c) ensures LexLe(a, c) { LexTransitive(a, b, c); }
  }

  // ----- Escapes -----------------------------------------------------------------------------

  function EscapeChar(c: char): string {
    if c == '\\' then "\\\\" else if c == '\n' then "\\n" else if c == '"' then "\\\"" else [c]
  }

  lemma {:induction false} ReplaceConcat(a: string, b: string, c: char, with: string)
    ensures ReplaceAll(a + b, c, with) == ReplaceAll(a, c, with) + ReplaceAll(b, c, with)
  {
    if a == "" {
      assert a + b == b;
    } else {
      assert (a + b)[1..] == a[1..] + b;
      ReplaceConcat(a[1..], b, c, with);
    }
  }

  lemma ReplaceShort(s: string, c: char, with: string)
    ensures |s| == 1 ==> ReplaceAll(s, c, with) == if s[0] == c then with else s
    ensures |s| == 2 && s[0] != c && s[1] != c ==> ReplaceAll(s, c, with) == s
  {
    if |s| == 1 {
      assert s[1..] == "";
      assert (if s[0] == c then with else [s[0]]) + "" == if s[0] == c then with else s;
    } else if |s| == 2 && s[0] != c && s[1] != c {
      assert s[1..][1..] == "";
      assert s == [s[0]] + ([s[1]] + "");
    }
  }

  /** The three passes do what one pass would: no pass rewrites what an earlier one wrote. */
  lemma EscapeByChar(c: char, rest: string)
    ensures EscapeLabelValue([c] + rest) == EscapeChar(c) + EscapeLabelValue(rest)
  {
    var one := ReplaceAll([c], '\\', "\\\\");
    ReplaceShort([c], '\\', "\\\\");
    ReplaceConcat([c], rest, '\\', "\\\\");
    var two := ReplaceAll(one, '\n', "\\n");
    ReplaceShort(one, '\n', "\\n");
    ReplaceConcat(one, ReplaceAll(rest, '\\', "\\\\"), '\n', "\\n");
    ReplaceShort(two, '"', "\\\"");
    ReplaceConcat(two, ReplaceAll(ReplaceAll(rest, '\\', "\\\\"), '\n', "\\n"), '"', "\\\"");
    assert ReplaceAll(two, '"', "\\\"") == EscapeChar(c);
  }

  lemma ParseOneMore(c: char, more: string, s: string, rest: string)
    requires ParseValue(s) == Some((more, rest))
    ensures ParseValue(EscapeChar(c) + s) == Some(([c] + more, rest))
  {
    var t := EscapeChar(c) + s;
    if c in {'\\', '\n', '"'} {
      assert t[0] == '\\' && t[1] == (if c == '\n' then 'n' else c) && t[2..] == s;
    } else {
      assert t[0] == c && t[1..] == s;
    }
  }

  lemma ParseEmpty(rest: string)
    ensures ParseValue(EscapeLabelValue("") + "\"" + rest) == Some(("", rest))
  {
    var s := "\"" + rest;
    assert EscapeLabelValue("") + "\"" + rest == s && s[1..] == rest;
  }

  lemma {:induction false} ValueRoundTrip(value: string, rest: string)
    ensures ParseValue(EscapeLabelValue(value) + "\"" + rest) == Some((value, rest))
  {
    hide EscapeLabelValue, ParseValue, EscapeChar;
    if value == "" {
      ParseEmpty(rest);
    } else {
      var c, more := value[0], value[1..];
      assert value == [c] + more;
      EscapeByChar(c, more);
      ValueRoundTrip(more, rest);
      var s := EscapeLabelValue(more) + "\"" + rest;
      assert EscapeLabelValue(value) + "\"" + rest == EscapeChar(c) + s;
      ParseOneMore(c, more, s, rest);
    }
  }

  // ----- Injectivity -------------------------------------------------------------------------

  /** [a-zA-Z_][a-zA-Z0-9_]*, the exposition format's label names. */
  predicate LegalName(name: string) {
    && name != "" && !('0' <= name[0] <= '9')
    && forall i :: 0 <= i < |name| ==>
         'a' <= name[i] <= 'z' || 'A' <= name[i] <= 'Z' || '0' <= name[i] <= '9' || name[i] == '_'
  }

  ghost predicate Legal(labels: Labels) {
    DistinctKeys(labels) && forall i :: 0 <= i < |labels| ==> LegalName(labels[i].0)
  }

  /** The label set, with the order of its names forgotten. */
  ghost function ToMap(labels: Labels): map<string, string> {
    map k | k in Keys(labels) :: Lookup(labels, k)
  }

  function SortedPairs(labels: Labels, keys: seq<string>): Labels {
    seq(|keys|, i requires 0 <= i < |keys| => (keys[i], Lookup(labels, keys[i])))
  }

  // Text that starts with part parses as name="value" followed by rest.
  ghost predicate PrintsBefore(part: string, name: string, value: string, rest: string) {
    var s := part + rest;
    && IndexOf(s, '=') == |name| && |name| + 2 <= |s| && s[|name| + 1] == '"' && s[..|name|] == name
    && ParseValue(s[|name| + 2..]) == Some((value, rest))
  }

  lemma PartPrints(labels: Labels, key: string, rest: string)
    requires LegalName(key)
    ensures PrintsBefore(Part(labels, key), key, Lookup(labels, key), rest)
  {
    hide EscapeLabelValue, ParseValue, Lookup;
    var s, v := Part(labels, key) + rest, Lookup(labels, key);
    var tail := EscapeLabelValue(v) + "\"" + rest;
    assert s == key + ("=\"" + tail);
    assert s[|key|] == '=' && s[|key| + 1] == '"' && s[..|key|] == key && s[|key| + 2..] == tail;
    assert forall i :: 0 <= i < |key| ==> s[i] == key[i];
    ValueRoundTrip(v, rest);
  }

  lemma ParsePairsStep(part: string, name: string, value: string, more: string)
    requires PrintsBefore(part, name, value, "," + more) && ParsePairs(more).Some?
    ensures ParsePairs(part + ("," + more)) == Some([(name, value)] + ParsePairs(more).value)
  {
    hide ParseValue;
    var rest := "," + more;
    assert rest[0] == ',' && rest[1..] == more;
    assert rest != "}" by { assert rest[0] != "}"[0]; }
  }

  lemma ParseLast(part: string, name: string, value: string)
    requires PrintsBefore(part, name, value, "}")
    ensures ParsePairs(part + "}") == Some([(name, value)])
  {
    hide ParseValue;
  }

  lemma {:induction false} PartsRoundTrip(parts: seq<string>, pairs: Labels)
    requires |parts| == |pairs| > 0
    requires forall i, rest :: 0 <= i < |parts| ==> PrintsBefore(parts[i], pairs[i].0, pairs[i].1, rest)
    ensures ParsePairs(Join(parts, ",") + "}") == Some(pairs)
  {
    hide ParsePairs, PrintsBefore;
    var (name, value) := pairs[0];
    if |parts| == 1 {
      ParseLast(parts[0], name, value);
      assert pairs == [(name, value)];
    } else {
      var more := Join(parts[1..], ",") + "}";
      assert Join(parts, ",") + "}" == parts[0] + ("," + more);
      PartsRoundTrip(parts[1..], pairs[1..]);
      assert PrintsBefore(parts[0], name, value, "," + more);
      ParsePairsStep(parts[0], name, value, more);
      assert pairs == [(name, value)] + pairs[1..];
    }
  }

  lemma SortedKeysAreKeys(labels: Labels)
    ensures |SortedKeys(labels)| == |labels|
    ensures multiset(SortedKeys(labels)) == multiset(Keys(labels))
    ensures forall k :: k in SortedKeys(labels) <==> k in Keys(labels)
  {
    SortPermutes(Keys(labels), LexLe);
    forall k ensures k in SortedKeys(labels) <==> k in Keys(labels) {
      SortKeeps(Keys(labels), LexLe, k);
    }
  }

  lemma ParsedPairs(labels: Labels)
    requires Legal(labels)
    ensures ParseLabels(RenderLabels(labels)) == Some(SortedPairs(labels, SortedKeys(labels)))
  {
    var keys := SortedKeys(labels);
    if keys != [] {
      SortedKeysAreKeys(labels);
      var pairs := SortedPairs(labels, keys);
      forall i, rest | 0 <= i < |keys|
        ensures PrintsBefore(Parts(labels, keys)[i], pairs[i].0, pairs[i].1, rest)
      {
        assert keys[i] in Keys(labels);
        PartPrints(labels, keys[i], rest);
      }
      PartsRoundTrip(Parts(labels, keys), pairs);
      var inner := Join(Parts(labels, keys), ",") + "}";
      assert RenderLabels(labels) == "{" + inner && ("{" + inner)[1..] == inner;
    }
  }

  /** The printed form reads back as the label set, for every map and every value string. */
  lemma RenderRoundTrip(labels: Labels)
    requires Legal(labels)
    ensures ParseLabels(RenderLabels(labels)).Some?
    ensures ToMap(ParseLabels(RenderLabels(labels)).value) == ToMap(labels)
  {
    ParsedPairs(labels);
    PairsAreLabels(labels);
  }

  lemma PairsAreLabels(labels: Labels)
    ensures ToMap(SortedPairs(labels, SortedKeys(labels))) == ToMap(labels)
  {
    var keys := SortedKeys(labels);
    var pairs := SortedPairs(labels, keys);
    SortedKeysAreKeys(labels);
    assert Keys(pairs) == keys;
    forall k | k in keys ensures Lookup(pairs, k) == Lookup(labels, k) {
    }
  }

  /** Two label sets share a series exactly when they are the same set. */
  lemma SeriesKeyInjective(a: Labels, b: Labels)
    requires Legal(a) && Legal(b)
    ensures SeriesKey(a) == SeriesKey(b) <==> ToMap(a) == ToMap(b)
  {
    if SeriesKey(a) == SeriesKey(b) {
      RenderRoundTrip(a);
      RenderRoundTrip(b);
    }
    if ToMap(a) == ToMap(b) {
      SameKeysSorted(a, b);
      var keys := SortedKeys(a);
      SortedKeysAreKeys(a);
      forall i | 0 <= i < |keys| ensures Part(a, keys[i]) == Part(b, keys[i]) {
        assert keys[i] in Keys(a);
        assert ToMap(a)[keys[i]] == ToMap(b)[keys[i]];
      }
      assert Parts(a, keys) == Parts(b, keys);
    }
  }

  lemma SameKeysSorted(a: Labels, b: Labels)
    requires DistinctKeys(a) && DistinctKeys(b) && ToMap(a).Keys == ToMap(b).Keys
    ensures SortedKeys(a) == SortedKeys(b)
  {
    LexIsTotalOrder();
    SortOrders(Keys(a), LexLe);
    SortOrders(Keys(b), LexLe);
    SortedKeysAreKeys(a);
    SortedKeysAreKeys(b);
    forall k ensures multiset(Keys(a))[k] == multiset(Keys(b))[k] {
      DistinctCount(Keys(a), k);
      DistinctCount(Keys(b), k);
      assert k in Keys(a) <==> k in ToMap(a).Keys;
      assert k in Keys(b) <==> k in ToMap(b).Keys;
    }
    OrderedUnique(SortedKeys(a), SortedKeys(b), LexLe);
  }

  lemma {:induction false} DistinctCount(xs: seq<string>, x: string)
    requires forall i, j :: 0 <= i < j < |xs| ==> xs[i] != xs[j]
    ensures multiset(xs)[x] == if x in xs then 1 else 0
  {
    if xs != [] {
      DistinctCount(xs[1..], x);
      assert xs == [xs[0]] + xs[1..];
    }
  }
}
