/** Values shared by every part of the model: optional values, results,
    parsed JSON, JavaScript truthiness, and the string operations the
    back end relies on (trim, lower-casing, prefix tests, splitting). */
module Common {

  /** An optional value; `None` stands for a property that is `undefined`
      or `null`. */
  datatype Option<+T> = None | Some(value: T) {
    function GetOr(default: T): T {
      match this
      case Some(v) => v
      case None => default
    }
  }

  /** A returned value or a thrown error. */
  datatype Result<+T, +E> = Ok(value: T) | Err(error: E)

  /** A point in time, in milliseconds since the epoch. */
  type Time = int

  /** A JSON value as found in a request body or a reply; numbers are
      integers in this model. */
  datatype Json =
    | JNull
    | JBool(b: bool)
    | JNum(n: int)
    | JStr(s: string)
    | JArr(items: seq<Json>)
    | JObj(fields: map<string, Json>)

  /** Reading property `k` of a plain object: `None` when it is absent. */
  function Get(m: map<string, Json>, k: string): (r: Option<Json>)
    ensures r.Some? <==> k in m
    ensures r.Some? ==> r.value == m[k]
  {
    if k in m then Some(m[k]) else None
  }

  /** JavaScript truthiness of a property read (`undefined`, `null`,
      `false`, `0` and `""` are falsy; every array and object is truthy). */
  predicate Truthy(v: Option<Json>) {
    match v
    case None => false
    case Some(JNull) => false
    case Some(JBool(b)) => b
    case Some(JNum(n)) => n != 0
    case Some(JStr(s)) => s != ""
    case Some(_) => true
  }

  /** Truthiness of an optional string: present and non-empty. */
  predicate TruthyString(v: Option<string>) {
    v.Some? && v.value != ""
  }

  // ---------------------------------------------------------------------
  // Whitespace and String.prototype.trim

  /** The characters `String.prototype.trim` removes: the WhiteSpace and
      LineTerminator code points of ECMAScript. */
  predicate IsWhitespace(c: char) {
    || c == '\t' || c == '\n' || c == '\U{000B}' || c == '\U{000C}' || c == '\r'
    || c == ' ' || c == '\U{00A0}' || c == '\U{1680}'
    || ('\U{2000}' <= c <= '\U{200A}')
    || c == '\U{2028}' || c == '\U{2029}' || c == '\U{202F}' || c == '\U{205F}'
    || c == '\U{3000}' || c == '\U{FEFF}'
  }

  predicate AllWhitespace(s: string) {
    forall i :: 0 <= i < |s| ==> IsWhitespace(s[i])
  }

  /** `s` with its longest all-whitespace prefix removed. */
  function TrimStart(s: string): (r: string)
    ensures |r| <= |s| && r == s[|s| - |r|..]
    ensures AllWhitespace(s[..|s| - |r|])
    ensures r == [] || !IsWhitespace(r[0])
  {
    if s != [] && IsWhitespace(s[0]) then TrimStart(s[1..]) else s
  }

  /** `s` with its longest all-whitespace suffix removed. */
  function TrimEnd(s: string): (r: string)
    ensures |r| <= |s| && r == s[..|r|]
    ensures AllWhitespace(s[|r|..])
    ensures r == [] || !IsWhitespace(r[|r| - 1])
  {
    if s != [] && IsWhitespace(s[|s| - 1]) then TrimEnd(s[..|s| - 1]) else s
  }

  /** `String.prototype.trim`: the part of `s` between its leading and its
      trailing whitespace. */
  function Trim(s: string): (r: string)
    ensures |r| <= |s|
    ensures r == [] || (!IsWhitespace(r[0]) && !IsWhitespace(r[|r| - 1]))
  {
    var t := TrimStart(s);
    var r := TrimEnd(t);
    assert r == [] || r[0] == t[0];
    r
  }

  /** What trimming removes is whitespace, from both ends: `s` is a run of
      whitespace, then `Trim(s)`, then another run of whitespace. */
  lemma TrimRemovesOuterWhitespace(s: string) returns (k: nat)
    ensures k + |Trim(s)| <= |s|
    ensures forall i :: 0 <= i < |Trim(s)| ==> Trim(s)[i] == s[k + i]
    ensures forall i :: 0 <= i < k ==> IsWhitespace(s[i])
    ensures forall i :: k + |Trim(s)| <= i < |s| ==> IsWhitespace(s[i])
  {
    var t := TrimStart(s);
    k := |s| - |t|;
    LeadingRun(s, t, k);
    TrailingRun(t, TrimEnd(t));
  }

  lemma LeadingRun(s: string, t: string, k: nat)
    requires k <= |s| && t == s[k..] && AllWhitespace(s[..k])
    ensures forall i :: 0 <= i < |t| ==> t[i] == s[k + i]
    ensures forall i :: 0 <= i < k ==> IsWhitespace(s[i])
  {
    assert forall i :: 0 <= i < k ==> s[i] == s[..k][i];
  }

  lemma TrailingRun(t: string, r: string)
    requires |r| <= |t| && r == t[..|r|] && AllWhitespace(t[|r|..])
    ensures forall i :: 0 <= i < |r| ==> r[i] == t[i]
    ensures forall i :: |r| <= i < |t| ==> IsWhitespace(t[i])
  {
    assert forall i :: |r| <= i < |t| ==> t[i] == t[|r|..][i - |r|];
  }

  /** Trimming leaves nothing exactly when the string is whitespace only. */
  lemma TrimEmptyIffAllWhitespace(s: string)
    ensures Trim(s) == "" <==> AllWhitespace(s)
  {
    var t := TrimStart(s);
    if Trim(s) == "" {
      assert AllWhitespace(t[0..]);
      assert t == [];
      forall i | 0 <= i < |s|
        ensures IsWhitespace(s[i])
      {
        assert s[..|s| - |t|][i] == s[i];
      }
    }
    assert t != [] ==> t[0] == s[|s| - |t|];
  }

  /** A string that neither starts nor ends with whitespace is its own trim. */
  lemma TrimOfTrimmed(s: string)
    requires s == [] || (!IsWhitespace(s[0]) && !IsWhitespace(s[|s| - 1]))
    ensures Trim(s) == s
  {
  }

  /** Trimming `a + " "` when `a` is already trimmed. */
  lemma TrimTrailingSpace(a: string)
    requires a == [] || (!IsWhitespace(a[0]) && !IsWhitespace(a[|a| - 1]))
    ensures Trim(a + " ") == a
  {
    if a == [] {
      assert TrimStart(" ") == [];
    } else {
      assert TrimStart(a + " ") == a + " ";
      assert (a + " ")[..|a|] == a;
    }
  }

  /** Trimming `" " + b` when `b` is already trimmed. */
  lemma TrimLeadingSpace(b: string)
    requires b == [] || (!IsWhitespace(b[0]) && !IsWhitespace(b[|b| - 1]))
    ensures Trim(" " + b) == b
  {
    assert (" " + b)[1..] == b;
  }

  // ---------------------------------------------------------------------
  // JavaScript's `v <= 0` on a JSON value

  /** The decimal digits of `n`, without leading zeros. */
  function Digits(n: nat): (r: string)
    ensures |r| >= 1 && forall i :: 0 <= i < |r| ==> '0' <= r[i] <= '9'
    ensures AllZeros(r) <==> n == 0
    decreases n
  {
    if n < 10 then
      var r := [('0' as int + n) as char];
      assert AllZeros(r) <==> r[0] == '0';
      r
    else
      var r := Digits(n / 10) + [('0' as int + n % 10) as char];
      assert r[..|r| - 1] == Digits(n / 10);
      r
  }

  predicate AllZeros(t: string) {
    forall i :: 0 <= i < |t| ==> t[i] == '0'
  }

  predicate AllDigits(t: string) {
    |t| >= 1 && forall i :: 0 <= i < |t| ==> '0' <= t[i] <= '9'
  }

  /** `String(n)` for an integer. */
  function NumberText(n: int): string {
    if n < 0 then "-" + Digits(-n) else Digits(n)
  }

  /** `String(v)` for an element of an array being joined, where `null`
      becomes the empty string: the text `Array.prototype.join` uses. */
  function JoinedText(v: Json): string
    decreases v
  {
    match v
    case JNull => ""
    case JBool(b) => if b then "true" else "false"
    case JNum(n) => NumberText(n)
    case JStr(s) => s
    case JArr(items) => CommaJoin(seq(|items|, i requires 0 <= i < |items| => JoinedText(items[i])))
    case JObj(_) => "[object Object]"
  }

  /** `parts.join(",")`, with the empty string for no parts. */
  function CommaJoin(parts: seq<string>): string {
    if parts == [] then "" else if |parts| == 1 then parts[0]
    else CommaJoin(parts[..|parts| - 1]) + "," + parts[|parts| - 1]
  }

  /** `Number(s) <= 0`: the text without its outer whitespace is read as a
      number. */
  predicate TextAtMostZero(s: string) {
    NumericAtMostZero(Trim(s))
  }

  /** `Number(t) <= 0` for text `t` without outer whitespace: the empty
      text is 0, an optionally signed run of decimal digits is that
      integer, and any other text is `NaN`, which is never at most 0. */
  predicate NumericAtMostZero(t: string) {
    if t == "" then true
    else if t[0] == '-' then AllDigits(t[1..])
    else if t[0] == '+' then AllDigits(t[1..]) && AllZeros(t[1..])
    else AllDigits(t) && AllZeros(t)
  }

  /** Text without outer whitespace is read as it stands. */
  lemma TextOfTrimmed(t: string)
    requires t == [] || (!IsWhitespace(t[0]) && !IsWhitespace(t[|t| - 1]))
    ensures TextAtMostZero(t) == NumericAtMostZero(t)
  {
    TrimOfTrimmed(t);
  }

  /** `v <= 0` for a JSON value: `null` and `false` are 0 and `true` is 1;
      a string is read as a number; an array is read through the text it
      joins to; an object is `NaN`. */
  predicate AtMostZero(v: Json) {
    match v
    case JNull => true
    case JBool(b) => !b
    case JNum(n) => n <= 0
    case JStr(s) => TextAtMostZero(s)
    case JArr(_) => TextAtMostZero(JoinedText(v))
    case JObj(_) => false
  }

  /** Digits, with or without a minus sign before them, have no outer
      whitespace. */
  lemma DigitsHaveNoOuterWhitespace(d: string)
    requires AllDigits(d)
    ensures !IsWhitespace(d[0]) && !IsWhitespace(d[|d| - 1])
    ensures var t := "-" + d; t[1..] == d && !IsWhitespace(t[0]) && !IsWhitespace(t[|t| - 1])
  {
    assert '0' <= d[0] <= '9' && '0' <= d[|d| - 1] <= '9';
    var t := "-" + d;
    assert t[|t| - 1] == d[|d| - 1];
  }

  /** Digits are at most 0 exactly when they are all zeros, and always
      with a minus sign before them. */
  lemma DigitsAtMostZero(d: string)
    requires AllDigits(d)
    ensures NumericAtMostZero(d) <==> AllZeros(d)
    ensures NumericAtMostZero("-" + d)
  {
    assert '0' <= d[0] <= '9';
    assert ("-" + d)[1..] == d;
  }

  /** The same, read as text. */
  lemma DigitTextAtMostZero(d: string)
    requires AllDigits(d)
    ensures TextAtMostZero(d) <==> AllZeros(d)
    ensures TextAtMostZero("-" + d)
  {
    DigitsHaveNoOuterWhitespace(d);
    TextOfTrimmed(d);
    TextOfTrimmed("-" + d);
    DigitsAtMostZero(d);
  }

  /** A number and its text compare alike with 0, so a one-element array
      compares as its element. */
  lemma NumberTextAtMostZero(n: int)
    ensures TextAtMostZero(NumberText(n)) <==> n <= 0
    ensures AtMostZero(JArr([JNum(n)])) <==> n <= 0
  {
    DigitTextAtMostZero(Digits(if n < 0 then -n else n));
    SingleJoinedText(JNum(n));
  }

  /** A one-element array joins to the text of its element. */
  lemma SingleJoinedText(v: Json)
    ensures JoinedText(JArr([v])) == JoinedText(v)
  {
    assert seq(1, i requires 0 <= i < 1 => JoinedText([v][i])) == [JoinedText(v)];
  }

  // ---------------------------------------------------------------------
  // Lower-casing (SQL LOWER over ASCII letters)

  function LowerChar(c: char): (r: char)
    ensures 'A' <= c <= 'Z' ==> r as int == c as int + 32
    ensures !('A' <= c <= 'Z') ==> r == c
  {
    if 'A' <= c <= 'Z' then (c as int + 32) as char else c
  }

  /** SQL `LOWER`: every upper-case letter replaced by its lower-case
      letter, every other character kept. */
  function Lower(s: string): (r: string)
    ensures |r| == |s|
    ensures forall i :: 0 <= i < |r| ==> !('A' <= r[i] <= 'Z')
    ensures forall i :: 0 <= i < |s| && !('A' <= s[i] <= 'Z') ==> r[i] == s[i]
  {
    seq(|s|, i requires 0 <= i < |s| => LowerChar(s[i]))
  }

  /** Lower-casing twice is lower-casing once. */
  lemma LowerIdempotent(s: string)
    ensures Lower(Lower(s)) == Lower(s)
  {
  }

  /** Case-insensitive equality, as `LOWER(a) = LOWER(b)`. */
  predicate SameIgnoringCase(a: string, b: string) {
    Lower(a) == Lower(b)
  }

  // ---------------------------------------------------------------------
  // Prefixes and splitting

  predicate StartsWith(s: string, prefix: string) {
    |prefix| <= |s| && s[..|prefix|] == prefix
  }

  /** The index of the first occurrence of `c` in `s`. */
  function IndexOf(s: string, c: char): (k: nat)
    requires c in s
    ensures k < |s| && s[k] == c && c !in s[..k]
  {
    if s[0] == c then 0 else 1 + IndexOf(s[1..], c)
  }

  /** `s.split(sep)` for a one-character separator: the maximal runs
      between separators, in order. */
  function Split(s: string, sep: char): (parts: seq<string>)
    ensures |parts| >= 1
    ensures forall i :: 0 <= i < |parts| ==> sep !in parts[i]
    decreases |s|
  {
    if sep !in s then [s]
    else
      var k := IndexOf(s, sep);
      [s[..k]] + Split(s[k + 1..], sep)
  }

  /** `parts.join(sep)`. */
  function Join(parts: seq<string>, sep: char): string
    requires |parts| >= 1
  {
    if |parts| == 1 then parts[0] else parts[0] + [sep] + Join(parts[1..], sep)
  }

  /** Splitting loses nothing: joining the parts back gives the string. */
  lemma {:induction false} JoinSplit(s: string, sep: char)
    ensures Join(Split(s, sep), sep) == s
    decreases |s|
  {
    if sep in s {
      var k := IndexOf(s, sep);
      JoinSplit(s[k + 1..], sep);
      assert Split(s, sep)[1..] == Split(s[k + 1..], sep);
      assert s == s[..k] + [sep] + s[k + 1..];
    }
  }

  /** The parts of `a + [sep] + b` when `a` holds no separator. */
  lemma SplitAtFirst(a: string, b: string, sep: char)
    requires sep !in a
    ensures Split(a + [sep] + b, sep) == [a] + Split(b, sep)
  {
    var s := a + [sep] + b;
    assert s[|a|] == sep;
    var k := IndexOf(s, sep);
    assert forall j :: 0 <= j < |a| ==> s[j] == a[j];
    assert forall j :: 0 <= j < k ==> s[..k][j] == s[j];
    assert k == |a|;
    assert s[..k] == a;
    assert s[k + 1..] == b;
  }

  // ---------------------------------------------------------------------
  // Object literals with repeated keys

  /** The object an object literal with entries `entries` evaluates to: a
      later entry for a key overwrites an earlier one. */
  function ObjectLiteral(entries: seq<(string, Json)>): (m: map<string, Json>)
    ensures forall k :: k in m <==> exists i :: 0 <= i < |entries| && entries[i].0 == k
  {
    if entries == [] then map[]
    else
      var last := entries[|entries| - 1];
      var rest := ObjectLiteral(entries[..|entries| - 1]);
      assert forall i :: 0 <= i < |entries| - 1 ==> entries[..|entries| - 1][i] == entries[i];
      rest[last.0 := last.1]
  }

  /** The value a key ends up with is that of its last entry. */
  lemma {:induction false} ObjectLiteralLastWins(entries: seq<(string, Json)>, i: nat)
    requires i < |entries|
    requires forall j :: i < j < |entries| ==> entries[j].0 != entries[i].0
    ensures entries[i].0 in ObjectLiteral(entries)
    ensures ObjectLiteral(entries)[entries[i].0] == entries[i].1
  {
    if i < |entries| - 1 {
      var init := entries[..|entries| - 1];
      assert init[i] == entries[i];
      forall j | i < j < |init|
        ensures init[j].0 != init[i].0
      {
        assert init[j] == entries[j];
      }
      ObjectLiteralLastWins(init, i);
    }
  }

  /** A plain JavaScript object that is changed in place and shared by
      reference. */
  class JsObject {
    var props: map<string, Json>

    constructor(p: map<string, Json>)
      ensures props == p
    {
      props := p;
    }
  }
}
