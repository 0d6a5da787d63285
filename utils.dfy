/**
 * The fixed-window rate limiter and the password policy of `app/lib/utils.ts`.
 *
 * The limiter keeps one entry per caller identifier in a process-wide table;
 * every call looks the identifier up, resets or increments its entry and
 * reports whether the caller is over the limit.  `Date.now()` is the
 * parameter `now` (milliseconds); nothing is assumed about its monotonicity.
 */
module Utils {
  import opened Wrappers

  /** 15 minutes, in milliseconds. */
  const RATE_LIMIT_WINDOW: int := 15 * 60 * 1000
  const MAX_ATTEMPTS: int := 5

  /** `RateLimitEntry`: attempts counted in the current window and when the window opened. */
  datatype Entry = Entry(attempts: int, firstAttempt: int)

  type Store = map<string, Entry>

  /** Every stored entry has counted at least one attempt. */
  ghost predicate WellFormed(store: Store)
  {
    forall k :: k in store ==> store[k].attempts >= 1
  }

  /** The table after one call of `isRateLimited`, and that call's answer. */
  datatype Outcome = Outcome(store: Store, limited: bool)

  /** True when `now` lies beyond the window that `e` opened (strict comparison). */
  predicate Expired(e: Entry, now: int)
  {
    now - e.firstAttempt > RATE_LIMIT_WINDOW
  }

  /**
   * The effect of one call `isRateLimited(identifier)` at time `now` on the
   * table `store`: the specification the class method below is proved against.
   */
  function Attempt(store: Store, identifier: string, now: int): (o: Outcome)
    // a first call, or one past the window, opens a fresh window and is let through
    ensures identifier !in store || Expired(store[identifier], now) ==>
              o.store == store[identifier := Entry(1, now)] && !o.limited
    // inside the window the count goes up by exactly one and the window start is kept
    ensures identifier in store && !Expired(store[identifier], now) ==>
              o.store == store[identifier := Entry(store[identifier].attempts + 1, store[identifier].firstAttempt)]
    // the answer is whether the stored count now exceeds the limit
    ensures identifier in o.store && (o.limited <==> o.store[identifier].attempts > MAX_ATTEMPTS)
    // no other identifier's entry is touched
    ensures forall k :: k != identifier ==> (k in o.store <==> k in store)
    ensures forall k :: k != identifier && k in store ==> o.store[k] == store[k]
    ensures WellFormed(store) ==> WellFormed(o.store)
  {
    if identifier !in store then
      Outcome(store[identifier := Entry(1, now)], false)
    else
      var entry := store[identifier];
      if Expired(entry, now) then
        Outcome(store[identifier := Entry(1, now)], false)
      else
        var bumped := Entry(entry.attempts + 1, entry.firstAttempt);
        Outcome(store[identifier := bumped], bumped.attempts > MAX_ATTEMPTS)
  }

  /** The table and the answers after calls for one identifier at the given times, in order. */
  datatype Trace = Trace(store: Store, answers: seq<bool>)

  function Replay(store: Store, identifier: string, times: seq<int>): (t: Trace)
    ensures |t.answers| == |times|
    decreases |times|
  {
    if times == [] then Trace(store, [])
    else
      var before := Replay(store, identifier, times[..|times| - 1]);
      var o := Attempt(before.store, identifier, times[|times| - 1]);
      Trace(o.store, before.answers + [o.limited])
  }

  /**
   * For an identifier the table has not seen, calls that all fall within the
   * window opened by the first one leave one entry that counts every call and
   * keeps the first call's time.
   */
  lemma {:induction false} ReplayCounts(store: Store, identifier: string, times: seq<int>)
    requires identifier !in store
    requires times != []
    requires forall i :: 0 <= i < |times| ==> times[i] - times[0] <= RATE_LIMIT_WINDOW
    ensures var t := Replay(store, identifier, times);
            identifier in t.store && t.store[identifier] == Entry(|times|, times[0])
  {
    var n := |times|;
    if n == 1 {
      assert times[..0] == [];
    } else {
      var prefix := times[..n - 1];
      assert prefix[0] == times[0];
      ReplayCounts(store, identifier, prefix);
    }
  }

  /** Under the same conditions the `n`-th call is refused exactly when `n` exceeds the limit. */
  lemma {:induction false} LastAnswer(store: Store, identifier: string, times: seq<int>)
    requires identifier !in store
    requires times != []
    requires forall i :: 0 <= i < |times| ==> times[i] - times[0] <= RATE_LIMIT_WINDOW
    ensures Replay(store, identifier, times).answers[|times| - 1] == (|times| > MAX_ATTEMPTS)
  {
    var n := |times|;
    if n == 1 {
      assert times[..0] == [];
    } else {
      var prefix := times[..n - 1];
      assert prefix[0] == times[0];
      ReplayCounts(store, identifier, prefix);
    }
  }

  /**
   * Under the same conditions the first five calls are answered `false` and
   * every call from the sixth on is answered `true`.
   */
  lemma {:induction false} Threshold(store: Store, identifier: string, times: seq<int>)
    requires identifier !in store
    requires times != []
    requires forall i :: 0 <= i < |times| ==> times[i] - times[0] <= RATE_LIMIT_WINDOW
    ensures forall i :: 0 <= i < |times| ==>
              Replay(store, identifier, times).answers[i] == (i >= MAX_ATTEMPTS)
  {
    var n := |times|;
    var t := Replay(store, identifier, times);
    LastAnswer(store, identifier, times);
    if n > 1 {
      var prefix := times[..n - 1];
      assert prefix[0] == times[0];
      Threshold(store, identifier, prefix);
      var before := Replay(store, identifier, prefix);
      assert t.answers[..n - 1] == before.answers;
      forall i | 0 <= i < n - 1
        ensures t.answers[i] == (i >= MAX_ATTEMPTS)
      {
        assert t.answers[i] == before.answers[i];
      }
    }
  }

  /** A call after the window has elapsed resets the count to one and is let through. */
  lemma WindowReset(store: Store, identifier: string, now: int)
    requires identifier in store && now - store[identifier].firstAttempt > RATE_LIMIT_WINDOW
    ensures Attempt(store, identifier, now).store[identifier] == Entry(1, now)
    ensures !Attempt(store, identifier, now).limited
  {
  }

  /** At exactly fifteen minutes the window is still open: the count goes up, no reset. */
  lemma NoResetAtWindowEdge(store: Store, identifier: string)
    requires identifier in store
    ensures var e := store[identifier];
            Attempt(store, identifier, e.firstAttempt + 900_000).store[identifier]
              == Entry(e.attempts + 1, e.firstAttempt)
  {
  }

  /** The module-level `rateLimitStore` together with `isRateLimited`, which updates it. */
  class RateLimiter {
    var store: Store

    ghost predicate Valid()
      reads this
    {
      WellFormed(store)
    }

    constructor ()
      ensures Valid() && store == map[]
    {
      store := map[];
    }

    /** `isRateLimited(identifier)` called at time `now`. */
    method IsRateLimited(identifier: string, now: int) returns (limited: bool)
      requires Valid()
      modifies this
      ensures Valid()
      ensures store == Attempt(old(store), identifier, now).store
      ensures limited == Attempt(old(store), identifier, now).limited
    {
      if identifier !in store {
        store := store[identifier := Entry(1, now)];
        return false;
      }
      var entry := store[identifier];
      if now - entry.firstAttempt > RATE_LIMIT_WINDOW {
        store := store[identifier := Entry(1, now)];
        return false;
      }
      entry := entry.(attempts := entry.attempts + 1);
      store := store[identifier := entry];
      limited := entry.attempts > MAX_ATTEMPTS;
    }
  }

  // ---------------------------------------------------------------------------
  // validatePassword
  // ---------------------------------------------------------------------------

  const MSG_TOO_SHORT: string := "Password must be at least 8 characters long"
  const MSG_NO_UPPER: string := "Password must contain at least one uppercase letter"
  const MSG_NO_LOWER: string := "Password must contain at least one lowercase letter"
  const MSG_NO_DIGIT: string := "Password must contain at least one number"
  const MSG_NO_SPECIAL: string := "Password must contain at least one special character (!@#$%^&*)"

  /** The character classes of the regular expressions `[A-Z]`, `[a-z]`, `[0-9]` and `[!@#$%^&*]`. */
  datatype CharClass = Upper | Lower | Digit | Special

  predicate InClass(c: char, cls: CharClass)
  {
    match cls
    case Upper => 'A' <= c <= 'Z'
    case Lower => 'a' <= c <= 'z'
    case Digit => '0' <= c <= '9'
    case Special => c == '!' || c == '@' || c == '#' || c == '$' || c == '%' || c == '^' || c == '&' || c == '*'
  }

  /** `/[...]/.test(s)`: a left-to-right scan for one character of the class. */
  function Matches(s: string, cls: CharClass): (found: bool)
    ensures found <==> exists i :: 0 <= i < |s| && InClass(s[i], cls)
  {
    if s == [] then false
    else InClass(s[0], cls) || Matches(s[1..], cls)
  }

  /** The result object `{ isValid, error? }`. */
  datatype PasswordCheck = PasswordCheck(isValid: bool, error: Option<string>)

  /** The policy as one statement, independent of the order of the checks. */
  ghost predicate MeetsPolicy(password: string)
  {
    && |password| >= 8
    && (exists i :: 0 <= i < |password| && 'A' <= password[i] <= 'Z')
    && (exists i :: 0 <= i < |password| && 'a' <= password[i] <= 'z')
    && (exists i :: 0 <= i < |password| && '0' <= password[i] <= '9')
    && (exists i :: 0 <= i < |password| && InClass(password[i], Special))
  }

  /** `validatePassword`: the checks in their fixed order, the first failure reported. */
  function ValidatePassword(password: string): (r: PasswordCheck)
    ensures r.isValid <==> MeetsPolicy(password)
    ensures r.isValid <==> r.error == None
    ensures r.error == Some(MSG_TOO_SHORT) <==> |password| < 8
    ensures r.error == Some(MSG_NO_UPPER) <==>
              |password| >= 8 && !(exists i :: 0 <= i < |password| && 'A' <= password[i] <= 'Z')
    ensures r.error == Some(MSG_NO_LOWER) <==>
              |password| >= 8 && Matches(password, Upper)
              && !(exists i :: 0 <= i < |password| && 'a' <= password[i] <= 'z')
    ensures r.error == Some(MSG_NO_DIGIT) <==>
              |password| >= 8 && Matches(password, Upper) && Matches(password, Lower)
              && !(exists i :: 0 <= i < |password| && '0' <= password[i] <= '9')
    ensures r.error == Some(MSG_NO_SPECIAL) <==>
              |password| >= 8 && Matches(password, Upper) && Matches(password, Lower)
              && Matches(password, Digit)
              && !(exists i :: 0 <= i < |password| && InClass(password[i], Special))
  {
    if |password| < 8 then PasswordCheck(false, Some(MSG_TOO_SHORT))
    else if !Matches(password, Upper) then PasswordCheck(false, Some(MSG_NO_UPPER))
    else if !Matches(password, Lower) then PasswordCheck(false, Some(MSG_NO_LOWER))
    else if !Matches(password, Digit) then PasswordCheck(false, Some(MSG_NO_DIGIT))
    else if !Matches(password, Special) then PasswordCheck(false, Some(MSG_NO_SPECIAL))
    else PasswordCheck(true, None)
  }
}
