/** The key-rotation retry wrapper (`makeApiCall`): a fixed, non-empty pool of API keys and
    one persistent cursor. Each call tries keys one at a time starting at the cursor; a
    success or a key-related ("retryable") failure advances the cursor by one modulo the
    pool size, any other failure is rethrown at once, and after as many retryable failures
    as there are keys the call fails with a "pool exhausted" error whose cause is the last
    failure.

    The remote operation is an oracle `op(j, key)`: the outcome of the `j`-th attempt of
    the current call, made with `key`. */
module KeyRotation {
  import opened Js

  /** Substrings of an error message that mark the failure as key-related. */
  const InvalidKeySignature := "API key not valid"
  const InvalidKeyCodeSignature := "API_KEY_INVALID"
  const ExhaustedResourceSignature := "RESOURCE_EXHAUSTED"
  const QuotaSignature := "Quota exceeded"

  /** The substring that the application's error handler looks for to show its quota dialog. */
  const ExhaustedMarker := "All available API keys are exhausted"

  /** The message of the error thrown once every key has failed: the marker, then a hint. */
  const ExhaustedMessage := ExhaustedMarker + ". Please try again later."

  /** `error.message || ''`: an absent message reads as the empty string. */
  function MessageOf(e: Error): (m: string)
    ensures e.message.Some? ==> m == e.message.value
    ensures e.message.None? ==> m == []
  {
    e.message.GetOr([])
  }

  /** Whether a failure is key-related, so that the next key is worth trying. */
  predicate IsRetryable(e: Error)
  {
    var m := MessageOf(e);
    || Contains(m, InvalidKeySignature)
    || Contains(m, InvalidKeyCodeSignature)
    || Contains(m, ExhaustedResourceSignature)
    || Contains(m, QuotaSignature)
  }

  /** An error without a message (or with an empty one) is never retryable. */
  lemma {:induction false} NoMessageIsNotRetryable(e: Error)
    requires e.message == None || e.message == Some([])
    ensures !IsRetryable(e)
  {
    EmptyContainsOnlyEmpty(InvalidKeySignature);
    EmptyContainsOnlyEmpty(InvalidKeyCodeSignature);
    EmptyContainsOnlyEmpty(ExhaustedResourceSignature);
    EmptyContainsOnlyEmpty(QuotaSignature);
  }

  /** The error raised when the pool is exhausted, carrying the last failure as its cause. */
  function ExhaustedError(last: Option<Error>): (e: Error)
    ensures MessageOf(e) == ExhaustedMessage && e.cause == last
  {
    Error(Some(ExhaustedMessage), last)
  }

  /** The exhausted error is recognised by the application's quota check. */
  lemma ExhaustedErrorIsRecognised(last: Option<Error>)
    ensures Contains(MessageOf(ExhaustedError(last)), ExhaustedMarker)
  {
    PrefixIsContained(ExhaustedMessage, ExhaustedMarker, ". Please try again later.");
  }

  // ---------------------------------------------------------------------------------------
  // The cursor

  /** `(c + 1) % n`: the cursor moved on by one key, wrapping from the last key to the first. */
  function Next(c: nat, n: nat): (d: nat)
    requires c < n
    ensures d < n
    ensures d == if c + 1 == n then 0 else c + 1
  {
    (c + 1) % n
  }

  /** The key index that attempt `j` of a call starting at `start` uses: the cursor moved
      on `j` times. */
  function KeyIndex(start: nat, j: nat, n: nat): (i: nat)
    requires start < n
    ensures i < n
    decreases j
  {
    if j == 0 then start else Next(KeyIndex(start, j - 1, n), n)
  }

  lemma MulAtLeast(a: int, n: int)
    requires a >= 1 && n > 0
    ensures a * n >= n
  {
  }

  /** Euclidean division is unique. */
  lemma {:induction false} ModUnique(x: int, q: int, r: int, n: int)
    requires n > 0 && 0 <= r < n && x == q * n + r
    ensures x % n == r
  {
    var q', r' := x / n, x % n;
    assert (q - q') * n == r' - r;
    if q > q' {
      MulAtLeast(q - q', n);
    } else if q < q' {
      MulAtLeast(q' - q, n);
    }
  }

  /** Advancing a reduced cursor by one is the same as reducing the advanced count. */
  lemma {:induction false} ModSucc(x: nat, n: nat)
    requires n > 0
    ensures ((x % n) + 1) % n == (x + 1) % n
  {
    var q, r := x / n, x % n;
    if r + 1 < n {
      ModUnique(x + 1, q, r + 1, n);
      ModUnique(r + 1, 0, r + 1, n);
    } else {
      ModUnique(x + 1, q + 1, 0, n);
      ModUnique(r + 1, 1, 0, n);
    }
  }

  /** Moving on `j` times from `start` lands on `(start + j) % n`. */
  lemma {:induction false} KeyIndexIsMod(start: nat, j: nat, n: nat)
    requires start < n
    ensures KeyIndex(start, j, n) == (start + j) % n
    decreases j
  {
    if j == 0 {
      ModUnique(start, 0, start, n);
    } else {
      KeyIndexIsMod(start, j - 1, n);
      ModSucc(start + j - 1, n);
    }
  }

  /** Moving on `n` times goes once round the pool, back to the starting key. */
  lemma {:induction false} KeyIndexFullTurn(start: nat, n: nat)
    requires start < n
    ensures KeyIndex(start, n, n) == start
  {
    KeyIndexIsMod(start, n, n);
    ModUnique(start + n, 1, start, n);
  }

  /** Fewer than `n` steps from one key never land on it again. */
  lemma {:induction false} ModDistinct(s: nat, i: nat, j: nat, n: nat)
    requires i < j < n
    ensures (s + i) % n != (s + j) % n
  {
    var qi, qj := (s + i) / n, (s + j) / n;
    if (s + i) % n == (s + j) % n {
      assert (qj - qi) * n == j - i;
      if qj - qi >= 1 {
        MulAtLeast(qj - qi, n);
      } else if qj - qi <= -1 {
        MulAtLeast(qi - qj, n);
      }
    }
  }

  /** Within one turn round the pool the key indices are pairwise distinct. */
  lemma {:induction false} KeyIndexDistinct(start: nat, i: nat, j: nat, n: nat)
    requires start < n && i < j < n
    ensures KeyIndex(start, i, n) != KeyIndex(start, j, n)
  {
    KeyIndexIsMod(start, i, n);
    KeyIndexIsMod(start, j, n);
    ModDistinct(start, i, j, n);
  }

  /** Fewer than `n - 1` steps from the key after `a` never come back to `a`. */
  lemma {:induction false} KeyIndexAvoids(a: nat, m: nat, n: nat)
    requires a < n && m + 1 < n
    ensures KeyIndex(Next(a, n), m, n) != a
  {
    var b := Next(a, n);
    KeyIndexIsMod(b, m, n);
    if a + 1 < n {
      if a + 1 + m < n {
        ModUnique(a + 1 + m, 0, a + 1 + m, n);
      } else {
        ModUnique(a + 1 + m, 1, a + 1 + m - n, n);
      }
    } else {
      ModUnique(m, 0, m, n);
    }
  }

  // ---------------------------------------------------------------------------------------
  // The specification of one call

  /** The outcome of attempt `j` of a call that started with the cursor at `start`. */
  function AttemptAt<T>(keys: seq<string>, start: nat, op: (nat, string) -> Outcome<T>, j: nat): Outcome<T>
    requires start < |keys|
  {
    op(j, keys[KeyIndex(start, j, |keys|)])
  }

  predicate RetryableFailure<T>(o: Outcome<T>)
  {
    o.Threw? && IsRetryable(o.error)
  }

  /** The first attempt at or after `j` that does not fail retryably, or `|keys|` if
      every attempt from `j` up to the pool size fails retryably. */
  function FirstStop<T>(keys: seq<string>, start: nat, op: (nat, string) -> Outcome<T>, j: nat): (k: nat)
    requires start < |keys| && j <= |keys|
    ensures j <= k <= |keys|
    ensures forall i :: j <= i < k ==> RetryableFailure(AttemptAt(keys, start, op, i))
    ensures k < |keys| ==> !RetryableFailure(AttemptAt(keys, start, op, k))
    decreases |keys| - j
  {
    if j == |keys| || !RetryableFailure(AttemptAt(keys, start, op, j)) then j
    else FirstStop(keys, start, op, j + 1)
  }

  /** The key indices of the first `count` attempts of a call starting at `start`. */
  function Consecutive(start: nat, count: nat, n: nat): (r: seq<nat>)
    requires start < n
    ensures |r| == count
    decreases count
  {
    if count == 0 then [] else Consecutive(start, count - 1, n) + [KeyIndex(start, count - 1, n)]
  }

  /** What one call produces: its outcome, the cursor it leaves behind and the key
      indices it tried, in order. */
  datatype Rotation<+T> = Rotation(outcome: Outcome<T>, cursor: nat, tried: seq<nat>)

  /** The reference definition of a call: find the first attempt that does not fail
      retryably; a success moves the cursor past its key, a fatal failure leaves it on
      that key, and if every attempt fails retryably the pool is exhausted after the
      cursor has moved on once per key. */
  function Rotate<T>(keys: seq<string>, start: nat, op: (nat, string) -> Outcome<T>): (r: Rotation<T>)
    requires start < |keys|
    ensures r.cursor < |keys|
    ensures 1 <= |r.tried| <= |keys|
  {
    var n := |keys|;
    var k := FirstStop(keys, start, op, 0);
    if k == n then
      Rotation(Threw(ExhaustedError(Some(AttemptAt(keys, start, op, n - 1).error))), KeyIndex(start, n, n), Consecutive(start, n, n))
    else
      match AttemptAt(keys, start, op, k)
      case Returned(v) => Rotation(Returned(v), KeyIndex(start, k + 1, n), Consecutive(start, k + 1, n))
      case Threw(e) => Rotation(Threw(e), KeyIndex(start, k, n), Consecutive(start, k + 1, n))
  }

  lemma {:induction false} ConsecutiveAt(start: nat, count: nat, n: nat, j: nat)
    requires start < n && j < count
    ensures Consecutive(start, count, n)[j] == KeyIndex(start, j, n)
    decreases count
  {
    if j < count - 1 {
      ConsecutiveAt(start, count - 1, n, j);
    }
  }

  // ---------------------------------------------------------------------------------------
  // Properties of one call

  /** The first attempt that does not fail retryably is determined by the attempts alone. */
  lemma {:induction false} FirstStopIs<T>(keys: seq<string>, start: nat, op: (nat, string) -> Outcome<T>, k: nat)
    requires start < |keys| && k <= |keys|
    requires forall j :: 0 <= j < k ==> RetryableFailure(AttemptAt(keys, start, op, j))
    requires k < |keys| ==> !RetryableFailure(AttemptAt(keys, start, op, k))
    ensures FirstStop(keys, start, op, 0) == k
  {
  }

  /** A call tries at most one key per pool entry, on consecutive indices from the cursor,
      so no key is tried twice in one call. */
  lemma {:induction false} RotateTriesEachKeyAtMostOnce<T>(keys: seq<string>, start: nat, op: (nat, string) -> Outcome<T>)
    requires start < |keys|
    ensures var t := Rotate(keys, start, op).tried;
      && 1 <= |t| <= |keys|
      && (forall j :: 0 <= j < |t| ==> t[j] == (start + j) % |keys|)
      && (forall i, j :: 0 <= i < j < |t| ==> t[i] != t[j])
  {
    var n := |keys|;
    var t := Rotate(keys, start, op).tried;
    var k := FirstStop(keys, start, op, 0);
    var count := if k == n then n else k + 1;
    assert t == Consecutive(start, count, n);
    forall j | 0 <= j < |t| ensures t[j] == (start + j) % n {
      ConsecutiveAt(start, count, n, j);
      KeyIndexIsMod(start, j, n);
    }
    forall i, j | 0 <= i < j < |t| ensures t[i] != t[j] {
      ConsecutiveAt(start, count, n, i);
      ConsecutiveAt(start, count, n, j);
      KeyIndexDistinct(start, i, j, n);
    }
  }

  /** If the first `k` attempts fail retryably and attempt `k` succeeds, the value is
      returned unchanged, `k + 1` keys were tried and the cursor moves past the key that
      succeeded. */
  lemma {:induction false} RotateSucceedsAfterRetries<T>(keys: seq<string>, start: nat, op: (nat, string) -> Outcome<T>, k: nat, v: T)
    requires start < |keys| && k < |keys|
    requires forall j :: 0 <= j < k ==> RetryableFailure(AttemptAt(keys, start, op, j))
    requires AttemptAt(keys, start, op, k) == Returned(v)
    ensures Rotate(keys, start, op) == Rotation(Returned(v), KeyIndex(start, k + 1, |keys|), Consecutive(start, k + 1, |keys|))
    ensures KeyIndex(start, k + 1, |keys|) == (start + k + 1) % |keys|
  {
    FirstStopIs(keys, start, op, k);
    KeyIndexIsMod(start, k + 1, |keys|);
  }

  /** A failure that is not key-related is rethrown as it is, on the attempt that raised it,
      with no further attempt and with the cursor left on that attempt's key. */
  lemma {:induction false} RotateStopsOnFatalError<T>(keys: seq<string>, start: nat, op: (nat, string) -> Outcome<T>, k: nat, e: Error)
    requires start < |keys| && k < |keys|
    requires forall j :: 0 <= j < k ==> RetryableFailure(AttemptAt(keys, start, op, j))
    requires AttemptAt(keys, start, op, k) == Threw(e) && !IsRetryable(e)
    ensures Rotate(keys, start, op) == Rotation(Threw(e), KeyIndex(start, k, |keys|), Consecutive(start, k + 1, |keys|))
    ensures KeyIndex(start, k, |keys|) == (start + k) % |keys|
  {
    FirstStopIs(keys, start, op, k);
    KeyIndexIsMod(start, k, |keys|);
  }

  /** When every key fails retryably, all of them are tried once, the call fails with the
      exhausted error whose cause is the last failure, and the cursor is back where it was. */
  lemma {:induction false} RotateExhaustsPool<T>(keys: seq<string>, start: nat, op: (nat, string) -> Outcome<T>)
    requires start < |keys|
    requires forall j :: 0 <= j < |keys| ==> RetryableFailure(AttemptAt(keys, start, op, j))
    ensures var r := Rotate(keys, start, op);
      && r == Rotation(Threw(ExhaustedError(Some(AttemptAt(keys, start, op, |keys| - 1).error))), start, Consecutive(start, |keys|, |keys|))
      && Contains(MessageOf(r.outcome.error), ExhaustedMarker)
  {
    FirstStopIs(keys, start, op, |keys|);
    KeyIndexFullTurn(start, |keys|);
    ExhaustedErrorIsRecognised(Some(AttemptAt(keys, start, op, |keys| - 1).error));
  }

  /** The outcome of a call is the outcome of its last attempt, unless the pool was exhausted. */
  lemma {:induction false} RotateOutcomeIsLastAttempt<T>(keys: seq<string>, start: nat, op: (nat, string) -> Outcome<T>)
    requires start < |keys|
    ensures var r := Rotate(keys, start, op);
      || r.outcome == AttemptAt(keys, start, op, |r.tried| - 1)
      || (forall j :: 0 <= j < |keys| ==> RetryableFailure(AttemptAt(keys, start, op, j)))
  {
  }

  /** A successful call leaves the cursor on the key after the one that succeeded. */
  lemma {:induction false} RotateSuccessAdvancesCursor<T>(keys: seq<string>, start: nat, op: (nat, string) -> Outcome<T>)
    requires start < |keys|
    requires Rotate(keys, start, op).outcome.Returned?
    ensures var r := Rotate(keys, start, op);
      r.tried[|r.tried| - 1] < |keys| && r.cursor == Next(r.tried[|r.tried| - 1], |keys|)
  {
    var k := FirstStop(keys, start, op, 0);
    ConsecutiveAt(start, k + 1, |keys|, k);
  }

  /** Two successive successful calls on a pool of two or more keys succeed with different
      keys, unless the second call had to go all the way round the pool. */
  lemma {:induction false} SuccessiveCallsUseDifferentKeys<T>(keys: seq<string>, start: nat,
                                                              op1: (nat, string) -> Outcome<T>, op2: (nat, string) -> Outcome<T>)
    requires |keys| >= 2 && start < |keys|
    requires Rotate(keys, start, op1).outcome.Returned?
    requires var mid := Rotate(keys, start, op1).cursor;
      Rotate(keys, mid, op2).outcome.Returned? && |Rotate(keys, mid, op2).tried| < |keys|
    ensures var r1 := Rotate(keys, start, op1);
      var r2 := Rotate(keys, r1.cursor, op2);
      r1.tried[|r1.tried| - 1] != r2.tried[|r2.tried| - 1]
  {
    var n := |keys|;
    var r1 := Rotate(keys, start, op1);
    var r2 := Rotate(keys, r1.cursor, op2);
    var a, k2 := r1.tried[|r1.tried| - 1], |r2.tried| - 1;
    RotateSuccessAdvancesCursor(keys, start, op1);
    var k := FirstStop(keys, r1.cursor, op2, 0);
    ConsecutiveAt(r1.cursor, k + 1, n, k2);
    KeyIndexAvoids(a, k2, n);
  }

  // ---------------------------------------------------------------------------------------
  // The pool with its persistent cursor

  class KeyPool {
    /** The fixed pool of keys. */
    const keys: seq<string>
    /** The index of the key the next attempt will use. */
    var cursor: nat

    ghost predicate Valid()
      reads this
    {
      |keys| > 0 && cursor < |keys|
    }

    /** The pool as the module is loaded: the cursor starts at the first key. */
    constructor (keys: seq<string>)
      requires |keys| > 0
      ensures Valid() && this.keys == keys && cursor == 0
    {
      this.keys := keys;
      cursor := 0;
    }

    /** One pass of the rotation loop's body (the `try`/`catch` block): attempt `attempts`
        with the key under the cursor. A success or a retryable failure moves the cursor
        on; any other failure leaves it. */
    method TryKey<T>(op: (nat, string) -> Outcome<T>, attempts: nat, ghost start: nat) returns (result: Outcome<T>)
      requires Valid() && start < |keys| && cursor == KeyIndex(start, attempts, |keys|)
      modifies this
      ensures Valid()
      ensures result == AttemptAt(keys, start, op, attempts)
      ensures cursor == if RetryableFailure(result) || result.Returned? then KeyIndex(start, attempts + 1, |keys|) else old(cursor)
    {
      var apiKey := keys[cursor];
      result := op(attempts, apiKey);
      if result.Returned? || IsRetryable(result.error) {
        cursor := (cursor + 1) % |keys|;
      }
    }

    /** `makeApiCall(op)`: runs the rotation loop and leaves the cursor for the next call.
        Its outcome, the cursor it leaves and the key indices its attempts used (`tried`,
        the cursor at each pass of the loop) are those of `Rotate`. */
    method Call<T>(op: (nat, string) -> Outcome<T>) returns (r: Outcome<T>, ghost tried: seq<nat>)
      requires Valid()
      modifies this
      ensures Valid()
      ensures r == Rotate(keys, old(cursor), op).outcome
      ensures cursor == Rotate(keys, old(cursor), op).cursor
      ensures tried == Rotate(keys, old(cursor), op).tried
    {
      ghost var start := cursor;
      tried := [];
      var maxRetries := |keys|;
      var attempts := 0;
      var lastError: Option<Error> := None;
      while attempts < maxRetries
        invariant 0 <= attempts <= maxRetries
        invariant Valid() && cursor == KeyIndex(start, attempts, |keys|)
        invariant tried == Consecutive(start, attempts, |keys|)
        invariant forall j :: 0 <= j < attempts ==> RetryableFailure(AttemptAt(keys, start, op, j))
        invariant attempts > 0 ==> lastError == Some(AttemptAt(keys, start, op, attempts - 1).error)
      {
        tried := tried + [cursor];
        var result := TryKey(op, attempts, start);
        if result.Returned? || !IsRetryable(result.error) {
          if result.Returned? {
            RotateSucceedsAfterRetries(keys, start, op, attempts, result.value);
          } else {
            RotateStopsOnFatalError(keys, start, op, attempts, result.error);
          }
          return result, tried;
        }
        lastError := Some(result.error);
        attempts := attempts + 1;
      }
      RotateExhaustsPool(keys, start, op);
      r := Threw(ExhaustedError(lastError));
    }
  }
}
