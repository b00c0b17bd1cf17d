/** The few pieces of JavaScript's runtime that the service and utility code relies on:
    a value that may be missing, an error object with an optional message and cause,
    the settled result of a promise, and the string built-ins `includes`, `trim`,
    `split` and the decimal rendering of a non-negative integer. */
module Js {

  datatype Option<+T> = None | Some(value: T) {
    function GetOr(default: T): T {
      match this
      case Some(v) => v
      case None => default
    }
  }

  /** An `Error` object as the code reads it: `error.message` (possibly absent) and
      `error.cause` (set only on the pool-exhausted error). */
  datatype Error = Error(message: Option<string>, cause: Option<Error>)

  /** A failure built with `new Error(message)`. */
  function Fail(message: string): (e: Error)
    ensures e.message == Some(message) && e.cause == None
  {
    Error(Some(message), None)
  }

  /** How an awaited promise settles: it resolves with a value or it rejects with an error. */
  datatype Outcome<+T> = Returned(value: T) | Threw(error: Error)

  /** `Promise.all` over promises that have all settled: the values in order when every
      one resolved; otherwise a rejection with one of the errors. Which rejection wins
      depends on timing; it is taken to be the one with the lowest index. */
  function All<T>(outcomes: seq<Outcome<T>>): (r: Outcome<seq<T>>)
    ensures r.Returned? <==> forall i :: 0 <= i < |outcomes| ==> outcomes[i].Returned?
    ensures r.Returned? ==> |r.value| == |outcomes| && forall i :: 0 <= i < |outcomes| ==> r.value[i] == outcomes[i].value
    ensures r.Threw? ==> exists i :: 0 <= i < |outcomes| && outcomes[i] == Threw(r.error)
    decreases |outcomes|
  {
    if outcomes == [] then Returned([])
    else
      match outcomes[0]
      case Threw(e) => Threw(e)
      case Returned(v) =>
        match All(outcomes[1..])
        case Returned(vs) => Returned([v] + vs)
        case Threw(e) => Threw(e)
  }

  // ---------------------------------------------------------------------------------------
  // Array.prototype.slice(0, n)

  /** `s.slice(0, n)`: the first `n` elements, or all of them if there are fewer. */
  function Take<T>(s: seq<T>, n: nat): (r: seq<T>)
    ensures |r| == if |s| <= n then |s| else n
    ensures r == s[..|r|]
  {
    if |s| <= n then s else s[..n]
  }

  // ---------------------------------------------------------------------------------------
  // String.prototype.includes

  /** `s.includes(sub)`: `sub` occurs in `s` at some offset. */
  predicate Contains(s: string, sub: string)
  {
    exists i :: 0 <= i <= |s| - |sub| && OccursAt(s, sub, i)
  }

  /** `sub` occurs in `s` starting at offset `i`. */
  predicate OccursAt(s: string, sub: string, i: nat)
  {
    i + |sub| <= |s| && s[i..i + |sub|] == sub
  }

  lemma {:induction false} PrefixIsContained(s: string, sub: string, rest: string)
    requires s == sub + rest
    ensures Contains(s, sub)
  {
    assert OccursAt(s, sub, 0);
  }

  lemma {:induction false} EmptyContainsOnlyEmpty(sub: string)
    requires sub != []
    ensures !Contains([], sub)
  {
  }

  // ---------------------------------------------------------------------------------------
  // String.prototype.trim

  /** The code points that `trim` removes: ECMAScript's WhiteSpace and LineTerminator. */
  predicate IsJsWhitespace(c: char)
  {
    || c == '\t' || c == '\n' || c == '\U{000B}' || c == '\U{000C}' || c == '\r' || c == ' '
    || c == '\U{00A0}' || c == '\U{1680}' || ('\U{2000}' <= c <= '\U{200A}')
    || c == '\U{2028}' || c == '\U{2029}' || c == '\U{202F}' || c == '\U{205F}'
    || c == '\U{3000}' || c == '\U{FEFF}'
  }

  /** Every character of `s` is whitespace (the empty string included). */
  predicate IsBlank(s: string)
  {
    forall k :: 0 <= k < |s| ==> IsJsWhitespace(s[k])
  }

  /** The index of the first non-whitespace character at or after `from`, or `|s|`. */
  function BlankUntil(s: string, from: nat): (k: nat)
    requires from <= |s|
    ensures from <= k <= |s|
    ensures forall i :: from <= i < k ==> IsJsWhitespace(s[i])
    ensures k < |s| ==> !IsJsWhitespace(s[k])
    decreases |s| - from
  {
    if from == |s| || !IsJsWhitespace(s[from]) then from else BlankUntil(s, from + 1)
  }

  /** The index just past the last non-whitespace character before `end`, or `0`. */
  function BlankFrom(s: string, end: nat): (k: nat)
    requires end <= |s|
    ensures k <= end
    ensures forall i :: k <= i < end ==> IsJsWhitespace(s[i])
    ensures k > 0 ==> !IsJsWhitespace(s[k - 1])
    decreases end
  {
    if end == 0 || !IsJsWhitespace(s[end - 1]) then end else BlankFrom(s, end - 1)
  }

  /** Drops leading whitespace. */
  function TrimStart(s: string): string
  {
    s[BlankUntil(s, 0)..]
  }

  /** Drops trailing whitespace. */
  function TrimEnd(s: string): string
  {
    s[..BlankFrom(s, |s|)]
  }

  /** `s.trim()`: what lies between the leading and the trailing whitespace. The result is
      an infix of `s` with only whitespace before and after it, and it neither starts nor
      ends with whitespace. */
  function Trim(s: string): (r: string)
    ensures |r| <= |s|
    ensures r != [] ==> !IsJsWhitespace(r[0]) && !IsJsWhitespace(r[|r| - 1])
    ensures exists a, b :: 0 <= a <= b <= |s| && r == s[a..b] && IsBlank(s[..a]) && IsBlank(s[b..])
  {
    var a := BlankUntil(s, 0);
    var t := s[a..];
    var b := a + BlankFrom(t, |t|);
    assert t[..b - a] == s[a..b];
    assert IsBlank(s[..a]);
    assert IsBlank(s[b..]) by {
      forall k | 0 <= k < |s| - b ensures IsJsWhitespace(s[b..][k]) {
        assert s[b..][k] == t[b - a + k];
      }
    }
    TrimEnd(TrimStart(s))
  }

  /** `s.trim()` is the empty string (so `!s.trim()` holds) exactly when `s` is all whitespace. */
  lemma {:induction false} TrimEmptyIffBlank(s: string)
    ensures Trim(s) == [] <==> IsBlank(s)
  {
    var t := TrimStart(s);
    if Trim(s) == [] {
      assert BlankFrom(t, |t|) == 0;
    }
  }

  /** Trimming a trimmed string changes nothing. */
  lemma {:induction false} TrimIdempotent(s: string)
    ensures Trim(Trim(s)) == Trim(s)
  {
    var t := Trim(s);
    if t != [] {
      assert BlankUntil(t, 0) == 0;
      assert TrimStart(t) == t;
      assert BlankFrom(t, |t|) == |t|;
    }
  }

  // ---------------------------------------------------------------------------------------
  // String.prototype.split with a one-character separator

  /** `s.split(sep)`: the maximal runs of `s` between separators, in order. */
  function Split(s: string, sep: char): (r: seq<string>)
    ensures |r| >= 1
    ensures forall k :: 0 <= k < |r| ==> sep !in r[k]
    decreases |s|
  {
    if s == [] then [[]]
    else
      var rest := Split(s[1..], sep);
      if s[0] == sep then [[]] + rest else [[s[0]] + rest[0]] + rest[1..]
  }

  /** `fields.join(sep)`. */
  function Join(fields: seq<string>, sep: char): string
    requires |fields| >= 1
    decreases |fields|
  {
    if |fields| == 1 then fields[0] else fields[0] + [sep] + Join(fields[1..], sep)
  }

  /** Prepending a character to the first field prepends it to the joined string. */
  lemma {:induction false} JoinConsChar(c: char, fields: seq<string>, sep: char)
    requires |fields| >= 1
    ensures Join([[c] + fields[0]] + fields[1..], sep) == [c] + Join(fields, sep)
  {
    var r := [[c] + fields[0]] + fields[1..];
    if |fields| > 1 {
      assert r[1..] == fields[1..];
    }
  }

  /** Prepending an empty field prepends a separator to the joined string. */
  lemma {:induction false} JoinConsEmpty(fields: seq<string>, sep: char)
    requires |fields| >= 1
    ensures Join([[]] + fields, sep) == [sep] + Join(fields, sep)
  {
    assert ([[]] + fields)[1..] == fields;
  }

  /** Joining the fields of a split gives the original string back. */
  lemma {:induction false} JoinSplit(s: string, sep: char)
    ensures Join(Split(s, sep), sep) == s
    decreases |s|
  {
    if s != [] {
      var rest := Split(s[1..], sep);
      JoinSplit(s[1..], sep);
      if s[0] == sep {
        JoinConsEmpty(rest, sep);
      } else {
        JoinConsChar(s[0], rest, sep);
      }
      assert s == [s[0]] + s[1..];
    }
  }

  /** Splitting after a leading separator starts with an empty field. */
  lemma {:induction false} SplitConsSep(s: string, sep: char)
    ensures Split([sep] + s, sep) == [[]] + Split(s, sep)
  {
    assert ([sep] + s)[1..] == s;
  }

  /** Splitting after a leading non-separator puts that character at the front of the
      first field. */
  lemma {:induction false} SplitConsOther(c: char, s: string, sep: char)
    requires c != sep
    ensures Split([c] + s, sep) == [[c] + Split(s, sep)[0]] + Split(s, sep)[1..]
  {
    assert ([c] + s)[1..] == s;
  }

  /** Splitting a joined list of separator-free fields gives the fields back. */
  lemma {:induction false} SplitJoin(fields: seq<string>, sep: char)
    requires |fields| >= 1
    requires forall k :: 0 <= k < |fields| ==> sep !in fields[k]
    ensures Split(Join(fields, sep), sep) == fields
    decreases |fields|, |fields[0]|
  {
    var f := fields[0];
    if f == [] {
      if |fields| > 1 {
        SplitJoin(fields[1..], sep);
        assert Join(fields, sep) == [sep] + Join(fields[1..], sep);
        SplitConsSep(Join(fields[1..], sep), sep);
        assert fields == [[]] + fields[1..];
      }
    } else {
      var shorter := [f[1..]] + fields[1..];
      assert shorter[1..] == fields[1..];
      assert sep !in shorter[0];
      SplitJoin(shorter, sep);
      JoinConsChar(f[0], shorter, sep);
      assert [f[0]] + f[1..] == f;
      assert [[f[0]] + shorter[0]] + shorter[1..] == fields;
      SplitConsOther(f[0], Join(shorter, sep), sep);
    }
  }

  // ---------------------------------------------------------------------------------------
  // Template-literal rendering of a non-negative integer (`${n}`)

  function DigitChar(d: nat): (c: char)
    requires d < 10
    ensures '0' <= c <= '9'
  {
    "0123456789"[d]
  }

  /** `${n}` for a non-negative integer: its decimal digits, without leading zeros. */
  function NatToString(n: nat): (r: string)
    ensures |r| >= 1
    ensures forall k :: 0 <= k < |r| ==> '0' <= r[k] <= '9'
    ensures (|r| == 1) <==> (n < 10)
  {
    if n < 10 then [DigitChar(n)] else NatToString(n / 10) + [DigitChar(n % 10)]
  }

  /** The number a string of decimal digits denotes, most significant digit first. */
  function DecimalValue(r: string): nat
    requires forall k :: 0 <= k < |r| ==> '0' <= r[k] <= '9'
    decreases |r|
  {
    if r == [] then 0 else 10 * DecimalValue(r[..|r| - 1]) + (r[|r| - 1] as int - '0' as int)
  }

  /** `${n}` is the canonical decimal numeral of `n`: its digits denote `n`, and it has no
      leading zero unless `n` is zero. */
  lemma {:induction false} NatToStringValue(n: nat)
    ensures DecimalValue(NatToString(n)) == n
    ensures NatToString(n)[0] != '0' || n == 0
    decreases n
  {
    var r := NatToString(n);
    if n < 10 {
      DigitCharValue(n);
    } else {
      var p := NatToString(n / 10);
      NatToStringValue(n / 10);
      DigitCharValue(n % 10);
      assert r[..|r| - 1] == p;
      assert DecimalValue(r) == 10 * DecimalValue(p) + n % 10;
      assert r[0] == p[0];
    }
  }

  /** A digit character stands for its digit. */
  lemma DigitCharValue(d: nat)
    requires d < 10
    ensures DigitChar(d) as int - '0' as int == d
    ensures DigitChar(d) == '0' <==> d == 0
  {
  }

  lemma DigitCharInjective(a: nat, b: nat)
    requires a < 10 && b < 10 && DigitChar(a) == DigitChar(b)
    ensures a == b
  {
  }

  /** Distinct numbers print differently. */
  lemma {:induction false} NatToStringInjective(a: nat, b: nat)
    requires NatToString(a) == NatToString(b)
    ensures a == b
    decreases a
  {
    var s := NatToString(a);
    if a < 10 {
      assert b < 10;
      DigitCharInjective(a, b);
    } else {
      assert b >= 10;
      var p, q := NatToString(a / 10), NatToString(b / 10);
      assert s == p + [DigitChar(a % 10)] == q + [DigitChar(b % 10)];
      assert |p| == |q|;
      assert p == s[..|s| - 1] == q;
      assert s[|s| - 1] == DigitChar(a % 10) == DigitChar(b % 10);
      NatToStringInjective(a / 10, b / 10);
      DigitCharInjective(a % 10, b % 10);
    }
  }
}
