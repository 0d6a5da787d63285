/**
 * The server actions of `app/lib/actions/poll-actions.ts`: the input
 * sanitiser, the validation `createPoll` applies before it writes, and the
 * four mutating actions over the polls and votes tables.
 *
 * The hosted datastore is an in-memory store (class `PollStore`): polls keyed
 * by their id and the votes table as a sequence of rows in insertion order.
 * The session lookup `supabase.auth.getUser()` is the input `auth`, and the
 * error a datastore write may report is the input `storeError`.
 */
module PollActions {
  import opened Wrappers

  // ---------------------------------------------------------------------------
  // sanitizeInput
  // ---------------------------------------------------------------------------

  predicate IsAngle(c: char)
  {
    c == '<' || c == '>'
  }

  /**
   * The characters `String.prototype.trim` removes, as inclusive ranges of code
   * points: ECMAScript WhiteSpace (tab, vertical tab, form feed, space,
   * no-break space, the byte-order mark and the other space separators) and
   * LineTerminator (line feed, carriage return, U+2028, U+2029).
   */
  const TRIMMABLE_RANGES: seq<(int, int)> :=
    [ (0x0009, 0x000D), (0x0020, 0x0020), (0x00A0, 0x00A0), (0x1680, 0x1680),
      (0x2000, 0x200A), (0x2028, 0x2029), (0x202F, 0x202F), (0x205F, 0x205F),
      (0x3000, 0x3000), (0xFEFF, 0xFEFF) ]

  predicate IsTrimmable(c: char)
  {
    exists i :: 0 <= i < |TRIMMABLE_RANGES| && TRIMMABLE_RANGES[i].0 <= c as int <= TRIMMABLE_RANGES[i].1
  }

  ghost predicate AngleFree(s: string)
  {
    forall i :: 0 <= i < |s| ==> !IsAngle(s[i])
  }

  /** `replace(/[<>]/g, '')`: every other character is kept, in order. */
  function StripAngles(s: string): (r: string)
    ensures AngleFree(r)
    ensures AngleFree(s) ==> r == s
  {
    if s == [] then []
    else (if IsAngle(s[0]) then [] else [s[0]]) + StripAngles(s[1..])
  }

  /** Stripping removes only brackets: every other character occurs as often as before. */
  lemma {:induction false} StripAnglesKeepsOthers(s: string, c: char)
    requires !IsAngle(c)
    ensures multiset(StripAngles(s))[c] == multiset(s)[c]
  {
    if s != [] {
      var head := if IsAngle(s[0]) then [] else [s[0]];
      StripAnglesKeepsOthers(s[1..], c);
      assert StripAngles(s) == head + StripAngles(s[1..]);
      assert s == [s[0]] + s[1..];
      assert multiset(head)[c] == multiset([s[0]])[c];
    }
  }

  /** Stripping works character by character, so it keeps the order of what it keeps. */
  lemma {:induction false} StripAnglesAppend(a: string, b: string)
    ensures StripAngles(a + b) == StripAngles(a) + StripAngles(b)
  {
    if a != [] {
      var head := if IsAngle(a[0]) then [] else [a[0]];
      assert (a + b)[0] == a[0] && (a + b)[1..] == a[1..] + b;
      assert StripAngles(a + b) == head + StripAngles(a[1..] + b);
      StripAnglesAppend(a[1..], b);
      assert StripAngles(a) == head + StripAngles(a[1..]);
      assert head + (StripAngles(a[1..]) + StripAngles(b)) == (head + StripAngles(a[1..])) + StripAngles(b);
    } else {
      assert a + b == b;
    }
  }

  /** `trimStart`: drops the leading run of trimmable characters; what is left is a suffix. */
  function TrimStart(s: string): (r: string)
    ensures |r| <= |s| && r == s[|s| - |r|..]
    ensures r != [] ==> !IsTrimmable(r[0])
  {
    if s != [] && IsTrimmable(s[0]) then TrimStart(s[1..]) else s
  }

  /** `trimEnd`: drops the trailing run of trimmable characters; what is left is a prefix. */
  function TrimEnd(s: string): (r: string)
    ensures |r| <= |s| && r == s[..|r|]
    ensures r != [] ==> !IsTrimmable(r[|r| - 1])
  {
    if s != [] && IsTrimmable(s[|s| - 1]) then TrimEnd(s[..|s| - 1]) else s
  }

  /** Only trimmable characters are dropped from the front. */
  lemma {:induction false} TrimStartDropsTrimmable(s: string)
    ensures forall k :: 0 <= k < |s| - |TrimStart(s)| ==> IsTrimmable(s[k])
  {
    if s != [] && IsTrimmable(s[0]) {
      TrimStartDropsTrimmable(s[1..]);
      assert forall k :: 1 <= k < |s| ==> s[k] == s[1..][k - 1];
    }
  }

  /** Only trimmable characters are dropped from the back. */
  lemma {:induction false} TrimEndDropsTrimmable(s: string)
    ensures forall k :: |TrimEnd(s)| <= k < |s| ==> IsTrimmable(s[k])
  {
    if s != [] && IsTrimmable(s[|s| - 1]) {
      TrimEndDropsTrimmable(s[..|s| - 1]);
      assert forall k :: 0 <= k < |s| - 1 ==> s[k] == s[..|s| - 1][k];
    }
  }

  /** `trim`: both ends at once; the result has no trimmable character at either end. */
  function Trim(s: string): (r: string)
    ensures |r| <= |s|
    ensures r != [] ==> !IsTrimmable(r[0]) && !IsTrimmable(r[|r| - 1])
  {
    TrimEnd(TrimStart(s))
  }

  /** `trim` keeps a slice of `s`, starting where the leading run ends. */
  lemma {:induction false} TrimKeepsSlice(s: string)
    ensures var lo := |s| - |TrimStart(s)|;
            lo + |Trim(s)| <= |s| && Trim(s) == s[lo..lo + |Trim(s)|]
  {
    var t := TrimStart(s);
    var r := TrimEnd(t);
    var lo := |s| - |t|;
    assert t == s[lo..] && r == t[..|r|];
    assert s[lo..][..|r|] == s[lo..lo + |r|];
  }

  /** Every character after the slice that `trim` keeps is trimmable. */
  lemma {:induction false} TrimDropsTrailing(s: string)
    ensures forall k :: |s| - |TrimStart(s)| + |Trim(s)| <= k < |s| ==> IsTrimmable(s[k])
  {
    var t := TrimStart(s);
    var lo := |s| - |t|;
    TrimEndDropsTrimmable(t);
    forall k | lo + |Trim(s)| <= k < |s|
      ensures IsTrimmable(s[k])
    {
      assert t[k - lo] == s[k];
    }
  }

  /**
   * What `trim` keeps is the piece of `s` between the leading and the trailing
   * run of trimmable characters: it is a slice of `s`, and every character
   * outside that slice is trimmable.
   */
  lemma {:induction false} TrimIsSlice(s: string)
    ensures var lo := |s| - |TrimStart(s)|;
            && lo + |Trim(s)| <= |s| && Trim(s) == s[lo..lo + |Trim(s)|]
            && (forall k :: 0 <= k < lo ==> IsTrimmable(s[k]))
            && (forall k :: lo + |Trim(s)| <= k < |s| ==> IsTrimmable(s[k]))
  {
    TrimKeepsSlice(s);
    TrimStartDropsTrimmable(s);
    TrimDropsTrailing(s);
  }

  /** A slice of a bracket-free string is bracket-free. */
  lemma {:induction false} SliceAngleFree(s: string, lo: int, hi: int)
    requires AngleFree(s) && 0 <= lo <= hi <= |s|
    ensures AngleFree(s[lo..hi])
  {
    assert forall i :: 0 <= i < hi - lo ==> s[lo..hi][i] == s[lo + i];
  }

  /** `sanitizeInput`: strip the angle brackets, then trim. */
  function Sanitize(input: string): (r: string)
    ensures AngleFree(r)
    ensures r != [] ==> !IsTrimmable(r[0]) && !IsTrimmable(r[|r| - 1])
  {
    var stripped := StripAngles(input);
    TrimKeepsSlice(stripped);
    var lo := |stripped| - |TrimStart(stripped)|;
    SliceAngleFree(stripped, lo, lo + |Trim(stripped)|);
    Trim(stripped)
  }

  /** A string with nothing to trim at either end is its own trim. */
  lemma {:induction false} TrimOfTrimmed(s: string)
    requires s != [] ==> !IsTrimmable(s[0]) && !IsTrimmable(s[|s| - 1])
    ensures Trim(s) == s
  {
    assert TrimStart(s) == s;
    assert TrimEnd(s) == s;
  }

  /** A string with no bracket and nothing to trim is left alone by the sanitiser. */
  lemma {:induction false} SanitizeFixedPoint(s: string)
    requires AngleFree(s)
    requires s != [] ==> !IsTrimmable(s[0]) && !IsTrimmable(s[|s| - 1])
    ensures Sanitize(s) == s
  {
    assert StripAngles(s) == s;
    TrimOfTrimmed(s);
  }

  /** Sanitising twice gives what sanitising once gives. */
  lemma {:induction false} SanitizeIdempotent(x: string)
    ensures Sanitize(Sanitize(x)) == Sanitize(x)
  {
    SanitizeFixedPoint(Sanitize(x));
  }

  // ---------------------------------------------------------------------------
  // createPoll's validation
  // ---------------------------------------------------------------------------

  const MAX_QUESTION_LENGTH: int := 500
  const MAX_OPTION_LENGTH: int := 200

  const MSG_MISSING_FIELDS: string := "Please provide a question and at least two options."
  const MSG_QUESTION_TOO_LONG: string := "Question is too long. Maximum 500 characters allowed."
  const MSG_OPTION_TOO_LONG: string := "Options are too long. Maximum 200 characters per option allowed."

  /** `filter(Boolean)` on form strings: drops exactly the empty strings, keeping order. */
  function DropEmpty(xs: seq<string>): (r: seq<string>)
    ensures forall i :: 0 <= i < |r| ==> r[i] != ""
    ensures |r| <= |xs|
    ensures (forall i :: 0 <= i < |xs| ==> xs[i] != "") ==> r == xs
  {
    if xs == [] then []
    else (if xs[0] == "" then [] else [xs[0]]) + DropEmpty(xs[1..])
  }

  /** The filter removes only empty strings: every other string occurs as often as before. */
  lemma {:induction false} DropEmptyKeepsOthers(xs: seq<string>, s: string)
    requires s != ""
    ensures multiset(DropEmpty(xs))[s] == multiset(xs)[s]
  {
    if xs != [] {
      var head := if xs[0] == "" then [] else [xs[0]];
      DropEmptyKeepsOthers(xs[1..], s);
      assert DropEmpty(xs) == head + DropEmpty(xs[1..]);
      assert xs == [xs[0]] + xs[1..];
      assert multiset(head)[s] == multiset([xs[0]])[s];
    }
  }

  /** The filter works option by option, so the kept options stay in their original order. */
  lemma {:induction false} DropEmptyAppend(a: seq<string>, b: seq<string>)
    ensures DropEmpty(a + b) == DropEmpty(a) + DropEmpty(b)
  {
    if a != [] {
      var head := if a[0] == "" then [] else [a[0]];
      assert (a + b)[0] == a[0] && (a + b)[1..] == a[1..] + b;
      assert DropEmpty(a + b) == head + DropEmpty(a[1..] + b);
      DropEmptyAppend(a[1..], b);
      assert DropEmpty(a) == head + DropEmpty(a[1..]);
      assert head + (DropEmpty(a[1..]) + DropEmpty(b)) == (head + DropEmpty(a[1..])) + DropEmpty(b);
    } else {
      assert a + b == b;
    }
  }

  /** `map(sanitizeInput)`. */
  function SanitizeAll(xs: seq<string>): (r: seq<string>)
    ensures |r| == |xs| && forall i :: 0 <= i < |xs| ==> r[i] == Sanitize(xs[i])
  {
    seq(|xs|, i requires 0 <= i < |xs| => Sanitize(xs[i]))
  }

  /** What `createPoll` would insert: the sanitised question and options. */
  datatype PollInput = PollInput(question: string, options: seq<string>)

  datatype Validation = Accepted(input: PollInput) | Rejected(message: string)

  /**
   * Lines 22-32 of `createPoll`, on the sanitised question and options: check,
   * in this order, that a question and two options are there, that the
   * question fits in 500 characters and that every option fits in 200.
   */
  function CheckPollInput(q: string, opts: seq<string>): (v: Validation)
    ensures v == Rejected(MSG_MISSING_FIELDS) <==> q == "" || |opts| < 2
    ensures v == Rejected(MSG_QUESTION_TOO_LONG) <==> q != "" && |opts| >= 2 && |q| > MAX_QUESTION_LENGTH
    ensures v == Rejected(MSG_OPTION_TOO_LONG) <==>
              q != "" && |opts| >= 2 && |q| <= MAX_QUESTION_LENGTH
              && exists i :: 0 <= i < |opts| && |opts[i]| > MAX_OPTION_LENGTH
    ensures v.Accepted? <==>
              q != "" && |opts| >= 2 && |q| <= MAX_QUESTION_LENGTH
              && forall i :: 0 <= i < |opts| ==> |opts[i]| <= MAX_OPTION_LENGTH
    ensures v.Accepted? ==> v.input == PollInput(q, opts)
  {
    if q == [] || |opts| < 2 then Rejected(MSG_MISSING_FIELDS)
    else if |q| > MAX_QUESTION_LENGTH then Rejected(MSG_QUESTION_TOO_LONG)
    else if exists i :: 0 <= i < |opts| && |opts[i]| > MAX_OPTION_LENGTH then Rejected(MSG_OPTION_TOO_LONG)
    else Accepted(PollInput(q, opts))
  }

  /**
   * Lines 17-32 of `createPoll`: sanitise the question, drop the empty raw
   * options and sanitise the rest, then check the result. Too few options is
   * judged on the raw non-empty options; whatever is accepted is sanitised,
   * fits the limits, and keeps the options' order.
   */
  function ValidateNewPoll(rawQuestion: string, rawOptions: seq<string>): (v: Validation)
    ensures v == Rejected(MSG_MISSING_FIELDS) <==> Sanitize(rawQuestion) == "" || |DropEmpty(rawOptions)| < 2
    ensures v.Accepted? ==>
              && v.input.question == Sanitize(rawQuestion) && v.input.question != ""
              && AngleFree(v.input.question) && |v.input.question| <= MAX_QUESTION_LENGTH
              && v.input.options == SanitizeAll(DropEmpty(rawOptions)) && |v.input.options| >= 2
              && forall i :: 0 <= i < |v.input.options| ==>
                   AngleFree(v.input.options[i]) && |v.input.options[i]| <= MAX_OPTION_LENGTH
  {
    CheckPollInput(Sanitize(rawQuestion), SanitizeAll(DropEmpty(rawOptions)))
  }

  /**
   * The length limit on the question is inclusive: with acceptable options, a
   * sanitised question of exactly 500 characters passes and 501 fails.
   */
  lemma QuestionLengthBoundary(rawQuestion: string, rawOptions: seq<string>)
    requires Sanitize(rawQuestion) != []
    requires var opts := SanitizeAll(DropEmpty(rawOptions));
             |opts| >= 2 && forall i :: 0 <= i < |opts| ==> |opts[i]| <= MAX_OPTION_LENGTH
    ensures |Sanitize(rawQuestion)| == 500 ==> ValidateNewPoll(rawQuestion, rawOptions).Accepted?
    ensures |Sanitize(rawQuestion)| == 501 ==> ValidateNewPoll(rawQuestion, rawOptions) == Rejected(MSG_QUESTION_TOO_LONG)
  {
  }

  /**
   * With an acceptable question and at least two options, one option longer
   * than 200 characters once sanitised is enough to refuse the poll.
   */
  lemma OptionLengthLimit(rawQuestion: string, rawOptions: seq<string>, k: int)
    requires Sanitize(rawQuestion) != [] && |Sanitize(rawQuestion)| <= MAX_QUESTION_LENGTH
    requires var opts := SanitizeAll(DropEmpty(rawOptions));
             |opts| >= 2 && 0 <= k < |opts| && |opts[k]| > MAX_OPTION_LENGTH
    ensures ValidateNewPoll(rawQuestion, rawOptions) == Rejected(MSG_OPTION_TOO_LONG)
  {
  }

  /** A string made only of brackets sanitises to the empty string. */
  lemma {:induction false} BracketsSanitizeToEmpty(s: string)
    requires forall i :: 0 <= i < |s| ==> IsAngle(s[i])
    ensures StripAngles(s) == "" && Sanitize(s) == ""
  {
    if s != [] {
      BracketsSanitizeToEmpty(s[1..]);
    }
  }

  /** Options that are not empty as typed all pass the filter, whatever sanitising makes of them. */
  lemma {:induction false} FilterBeforeSanitize(rawOptions: seq<string>)
    requires forall i :: 0 <= i < |rawOptions| ==> rawOptions[i] != ""
    ensures SanitizeAll(DropEmpty(rawOptions)) == SanitizeAll(rawOptions)
  {
    assert DropEmpty(rawOptions) == rawOptions;
  }

  /** A question and two options within their limits pass the checks unchanged. */
  lemma TwoOptionsAccepted(q: string, a: string, b: string)
    requires q != "" && |q| <= MAX_QUESTION_LENGTH
    requires |a| <= MAX_OPTION_LENGTH && |b| <= MAX_OPTION_LENGTH
    ensures CheckPollInput(q, [a, b]) == Accepted(PollInput(q, [a, b]))
  {
    var options := [a, b];
    assert forall i :: 0 <= i < |options| ==> |options[i]| <= MAX_OPTION_LENGTH;
  }

  /** Filtering and sanitising `[brackets, other]` keeps both, the first as the empty string. */
  lemma BracketOptionsSanitized(brackets: string, other: string)
    requires brackets != "" && forall i :: 0 <= i < |brackets| ==> IsAngle(brackets[i])
    requires other != ""
    ensures SanitizeAll(DropEmpty([brackets, other])) == ["", Sanitize(other)]
  {
    BracketsSanitizeToEmpty(brackets);
    FilterBeforeSanitize([brackets, other]);
    assert SanitizeAll([brackets, other]) == ["", Sanitize(other)];
  }

  /**
   * The empty-option filter runs on the raw strings, before sanitising: an
   * option made only of brackets, such as `<>`, survives it and is stored as
   * the empty string, so a poll can be created with an empty option.
   */
  lemma BracketOnlyOptionIsKept(rawQuestion: string, brackets: string, other: string)
    requires Sanitize(rawQuestion) != "" && |Sanitize(rawQuestion)| <= MAX_QUESTION_LENGTH
    requires brackets != "" && forall i :: 0 <= i < |brackets| ==> IsAngle(brackets[i])
    requires other != "" && |Sanitize(other)| <= MAX_OPTION_LENGTH
    ensures ValidateNewPoll(rawQuestion, [brackets, other])
            == Accepted(PollInput(Sanitize(rawQuestion), ["", Sanitize(other)]))
  {
    BracketOptionsSanitized(brackets, other);
    TwoOptionsAccepted(Sanitize(rawQuestion), "", Sanitize(other));
  }

  // ---------------------------------------------------------------------------
  // The store and the mutating actions
  // ---------------------------------------------------------------------------

  type UserId = string
  type PollId = nat

  /** A row of the polls table (its creation time is not modelled). */
  datatype Poll = Poll(owner: UserId, question: string, options: seq<string>)

  /** A row of the votes table. `optionIndex` is whatever the caller sent. */
  datatype Vote = Vote(pollId: PollId, userId: UserId, optionIndex: int)

  /** What `supabase.auth.getUser()` gives: an error, no user, or a signed-in user. */
  datatype Auth = AuthFailed(message: string) | Anonymous | SignedIn(id: UserId)

  /** The uniform `{ error: string | null }` every action returns. */
  datatype ActionResult = Done | Failed(message: string)

  const MSG_LOGIN_TO_CREATE: string := "You must be logged in to create a poll."
  const MSG_LOGIN_TO_VOTE: string := "You must be logged in to vote."
  const MSG_ALREADY_VOTED: string := "You have already voted on this poll."
  const MSG_LOGIN_TO_DELETE: string := "You must be logged in to delete a poll."
  const MSG_POLL_NOT_FOUND: string := "Poll not found."
  const MSG_NOT_OWNER: string := "You can only delete your own polls."
  const MSG_LOGIN_TO_UPDATE: string := "You must be logged in to update a poll."

  /** How many rows of `votes` match `(pollId, userId)`. */
  function CountVotes(votes: seq<Vote>, pollId: PollId, userId: UserId): (n: nat)
    ensures n <= |votes|
    decreases |votes|
  {
    if votes == [] then 0
    else
      var last := votes[|votes| - 1];
      CountVotes(votes[..|votes| - 1], pollId, userId)
        + (if last.pollId == pollId && last.userId == userId then 1 else 0)
  }

  /** Some row of `votes` is a vote by `userId` on `pollId`. */
  ghost predicate HasVoted(votes: seq<Vote>, pollId: PollId, userId: UserId)
  {
    exists i :: 0 <= i < |votes| && votes[i].pollId == pollId && votes[i].userId == userId
  }

  /** The one-vote-per-user-per-poll invariant of the votes table. */
  ghost predicate UniqueVotes(votes: seq<Vote>)
  {
    forall p, u :: CountVotes(votes, p, u) <= 1
  }

  /** Counting agrees with the existence of a matching row. */
  lemma {:induction false} CountVotesPositive(votes: seq<Vote>, pollId: PollId, userId: UserId)
    ensures CountVotes(votes, pollId, userId) > 0 <==> HasVoted(votes, pollId, userId)
    decreases |votes|
  {
    if votes != [] {
      var init := votes[..|votes| - 1];
      CountVotesPositive(init, pollId, userId);
      if HasVoted(init, pollId, userId) {
        var i :| 0 <= i < |init| && init[i].pollId == pollId && init[i].userId == userId;
        assert votes[i] == init[i];
      }
      if HasVoted(votes, pollId, userId) {
        var i :| 0 <= i < |votes| && votes[i].pollId == pollId && votes[i].userId == userId;
        if i < |init| {
          assert init[i] == votes[i];
        }
      }
    }
  }

  /**
   * Under the invariant, the duplicate query's `.single()` finds a row (it
   * needs exactly one) exactly when the user has voted on the poll.
   */
  lemma SingleMatchIsHasVoted(votes: seq<Vote>, pollId: PollId, userId: UserId)
    requires UniqueVotes(votes)
    ensures CountVotes(votes, pollId, userId) == 1 <==> HasVoted(votes, pollId, userId)
  {
    CountVotesPositive(votes, pollId, userId);
    assert CountVotes(votes, pollId, userId) <= 1;
  }

  /** Appending one row adds one to its own pair's count and nothing to the others. */
  lemma CountAfterAppend(votes: seq<Vote>, v: Vote, pollId: PollId, userId: UserId)
    ensures CountVotes(votes + [v], pollId, userId)
            == CountVotes(votes, pollId, userId) + (if v.pollId == pollId && v.userId == userId then 1 else 0)
  {
    assert (votes + [v])[..|votes + [v]| - 1] == votes;
  }

  /** Appending a row for a pair that has no row keeps the table unique. */
  lemma AppendKeepsUnique(votes: seq<Vote>, v: Vote)
    requires UniqueVotes(votes) && CountVotes(votes, v.pollId, v.userId) == 0
    ensures UniqueVotes(votes + [v])
  {
    forall p, u ensures CountVotes(votes + [v], p, u) <= 1 {
      CountAfterAppend(votes, v, p, u);
    }
  }

  /** The polls and votes tables. */
  class PollStore {
    var polls: map<PollId, Poll>
    var votes: seq<Vote>
    /** The id the datastore hands out to the next inserted poll. */
    var nextId: PollId

    /** Every poll id was handed out already, and no user has two votes on one poll. */
    ghost predicate Valid()
      reads this
    {
      (forall id :: id in polls ==> id < nextId) && UniqueVotes(votes)
    }

    constructor ()
      ensures Valid() && polls == map[] && votes == []
    {
      polls, votes, nextId := map[], [], 0;
    }

    /**
     * `createPoll`: validate, then consult the session, then insert. Every
     * failure leaves the polls table as it was; success adds exactly one
     * poll, under a fresh id, owned by the caller.
     */
    method CreatePoll(rawQuestion: string, rawOptions: seq<string>, auth: Auth, storeError: Option<string>)
      returns (result: ActionResult, id: PollId)
      requires Valid()
      modifies this
      ensures Valid() && votes == old(votes)
      ensures match ValidateNewPoll(rawQuestion, rawOptions)
              case Rejected(m) => result == Failed(m)
              case Accepted(input) =>
                match auth
                case AuthFailed(m) => result == Failed(m)
                case Anonymous => result == Failed(MSG_LOGIN_TO_CREATE)
                case SignedIn(u) =>
                  if storeError.Some? then result == Failed(storeError.value)
                  else
                    && result == Done
                    && id == old(nextId) && id !in old(polls)
                    && polls == old(polls)[id := Poll(u, input.question, input.options)]
      ensures result.Failed? ==> polls == old(polls) && nextId == old(nextId)
    {
      id := nextId;
      var validation := ValidateNewPoll(rawQuestion, rawOptions);
      if validation.Rejected? {
        return Failed(validation.message), id;
      }
      match auth
      case AuthFailed(m) => { return Failed(m), id; }
      case Anonymous => { return Failed(MSG_LOGIN_TO_CREATE), id; }
      case SignedIn(u) => {
        if storeError.Some? {
          return Failed(storeError.value), id;
        }
        polls := polls[id := Poll(u, validation.input.question, validation.input.options)];
        nextId := nextId + 1;
        result := Done;
      }
    }

    /**
     * `submitVote`: only a signed-in user votes (a session error counts as no
     * user); the duplicate query finds a row when exactly one matches; only
     * then is one row appended. `optionIndex` is not checked against the poll.
     */
    method SubmitVote(pollId: PollId, optionIndex: int, auth: Auth, storeError: Option<string>)
      returns (result: ActionResult)
      requires Valid()
      modifies this
      ensures Valid() && polls == old(polls) && nextId == old(nextId)
      ensures !auth.SignedIn? ==> result == Failed(MSG_LOGIN_TO_VOTE) && votes == old(votes)
      ensures auth.SignedIn? && CountVotes(old(votes), pollId, auth.id) == 1 ==>
                result == Failed(MSG_ALREADY_VOTED) && votes == old(votes)
      ensures auth.SignedIn? && CountVotes(old(votes), pollId, auth.id) != 1 ==>
                if storeError.Some? then result == Failed(storeError.value) && votes == old(votes)
                else result == Done && votes == old(votes) + [Vote(pollId, auth.id, optionIndex)]
      // read sequentially, a user who has voted on the poll is always refused
      ensures auth.SignedIn? && HasVoted(old(votes), pollId, auth.id) ==>
                result == Failed(MSG_ALREADY_VOTED)
    {
      if !auth.SignedIn? {
        return Failed(MSG_LOGIN_TO_VOTE);
      }
      var user := auth.id;
      SingleMatchIsHasVoted(votes, pollId, user);
      if CountVotes(votes, pollId, user) == 1 {
        return Failed(MSG_ALREADY_VOTED);
      }
      if storeError.Some? {
        return Failed(storeError.value);
      }
      var row := Vote(pollId, user, optionIndex);
      CountVotesPositive(votes, pollId, user);
      AppendKeepsUnique(votes, row);
      votes := votes + [row];
      result := Done;
    }

    /**
     * `deletePoll`: login, then existence, then ownership, then the delete.
     * Only the owner's call changes the table, and it removes that poll alone.
     */
    method DeletePoll(id: PollId, auth: Auth, storeError: Option<string>) returns (result: ActionResult)
      requires Valid()
      modifies this
      ensures Valid() && votes == old(votes) && nextId == old(nextId)
      ensures !auth.SignedIn? ==> result == Failed(MSG_LOGIN_TO_DELETE)
      ensures auth.SignedIn? && id !in old(polls) ==> result == Failed(MSG_POLL_NOT_FOUND)
      ensures auth.SignedIn? && id in old(polls) && old(polls)[id].owner != auth.id ==> result == Failed(MSG_NOT_OWNER)
      ensures auth.SignedIn? && id in old(polls) && old(polls)[id].owner == auth.id ==>
                result == if storeError.Some? then Failed(storeError.value) else Done
      ensures result.Failed? ==> polls == old(polls)
      ensures result == Done ==> polls == old(polls) - {id} && id in old(polls)
    {
      if !auth.SignedIn? {
        return Failed(MSG_LOGIN_TO_DELETE);
      }
      if id !in polls {
        return Failed(MSG_POLL_NOT_FOUND);
      }
      if polls[id].owner != auth.id {
        return Failed(MSG_NOT_OWNER);
      }
      if storeError.Some? {
        return Failed(storeError.value);
      }
      polls := polls - {id};
      result := Done;
    }

    /**
     * `updatePoll`: the raw question and the non-empty raw options, neither
     * sanitised nor length-checked, are written to the row that matches both
     * the id and the caller. A caller who does not own the poll matches no
     * row: nothing changes, and the result is still `Done`.
     */
    method UpdatePoll(id: PollId, rawQuestion: string, rawOptions: seq<string>, auth: Auth, storeError: Option<string>)
      returns (result: ActionResult)
      requires Valid()
      modifies this
      ensures Valid() && votes == old(votes) && nextId == old(nextId)
      ensures rawQuestion == "" || |DropEmpty(rawOptions)| < 2 ==> result == Failed(MSG_MISSING_FIELDS)
      ensures rawQuestion != "" && |DropEmpty(rawOptions)| >= 2 ==>
                match auth
                case AuthFailed(m) => result == Failed(m)
                case Anonymous => result == Failed(MSG_LOGIN_TO_UPDATE)
                case SignedIn(u) => result == if storeError.Some? then Failed(storeError.value) else Done
      ensures result.Failed? || !auth.SignedIn? || id !in old(polls) || old(polls)[id].owner != auth.id ==>
                polls == old(polls)
      ensures result == Done && auth.SignedIn? && id in old(polls) && old(polls)[id].owner == auth.id ==>
                polls == old(polls)[id := Poll(auth.id, rawQuestion, DropEmpty(rawOptions))]
    {
      var options := DropEmpty(rawOptions);
      if rawQuestion == "" || |options| < 2 {
        return Failed(MSG_MISSING_FIELDS);
      }
      match auth
      case AuthFailed(m) => { return Failed(m); }
      case Anonymous => { return Failed(MSG_LOGIN_TO_UPDATE); }
      case SignedIn(u) => {
        if storeError.Some? {
          return Failed(storeError.value);
        }
        if id in polls && polls[id].owner == u {
          polls := polls[id := polls[id].(question := rawQuestion, options := options)];
        }
        result := Done;
      }
    }
  }

  // ---------------------------------------------------------------------------
  // Sequences of actions on a fresh store, proved from the contracts above
  // ---------------------------------------------------------------------------

  /**
   * Someone creates a poll; another user's attempt to delete it is refused
   * and the poll stays, still owned by its creator.
   */
  method OnlyOwnerDeletes(question: string, options: seq<string>, owner: UserId, other: UserId)
    returns (created: ActionResult, deleted: ActionResult, poll: Option<Poll>)
    requires ValidateNewPoll(question, options).Accepted?
    requires owner != other
    ensures created == Done
    ensures deleted == Failed(MSG_NOT_OWNER)
    ensures poll == Some(Poll(owner, Sanitize(question), SanitizeAll(DropEmpty(options))))
  {
    var store := new PollStore();
    var id;
    created, id := store.CreatePoll(question, options, SignedIn(owner), None);
    deleted := store.DeletePoll(id, SignedIn(other), None);
    poll := if id in store.polls then Some(store.polls[id]) else None;
  }

  /**
   * A user votes on a new poll and then tries another option: the second vote
   * is refused. Another user's vote for an option index the poll does not
   * have is recorded as sent.
   */
  method SecondVoteRefused(question: string, options: seq<string>, voter: UserId, other: UserId, outside: int)
    returns (id: PollId, first: ActionResult, second: ActionResult, outOfRange: ActionResult, rows: seq<Vote>)
    requires ValidateNewPoll(question, options).Accepted?
    requires voter != other
    requires outside >= |SanitizeAll(DropEmpty(options))|
    ensures first == Done
    ensures second == Failed(MSG_ALREADY_VOTED)
    ensures outOfRange == Done
    ensures rows == [Vote(id, voter, 0), Vote(id, other, outside)]
  {
    var store := new PollStore();
    var created;
    created, id := store.CreatePoll(question, options, SignedIn(voter), None);
    first := store.SubmitVote(id, 0, SignedIn(voter), None);
    assert HasVoted(store.votes, id, voter) by {
      assert store.votes[0] == Vote(id, voter, 0);
    }
    second := store.SubmitVote(id, 1, SignedIn(voter), None);
    assert CountVotes(store.votes, id, other) == 0 by {
      assert store.votes[..0] == [];
    }
    outOfRange := store.SubmitVote(id, outside, SignedIn(other), None);
    rows := store.votes;
  }

  /** A caller without a session cannot vote, and no row is written. */
  method AnonymousVoteRefused(pollId: PollId, optionIndex: int) returns (result: ActionResult, rows: seq<Vote>)
    ensures result == Failed(MSG_LOGIN_TO_VOTE)
    ensures rows == []
  {
    var store := new PollStore();
    result := store.SubmitVote(pollId, optionIndex, Anonymous, None);
    rows := store.votes;
  }

  /** A question that is 501 characters long once sanitised is refused, and no poll is written. */
  method LongQuestionRefused(question: string, options: seq<string>, user: UserId)
    returns (result: ActionResult, polls: map<PollId, Poll>)
    requires |Sanitize(question)| == 501
    requires |SanitizeAll(DropEmpty(options))| >= 2
    ensures result == Failed(MSG_QUESTION_TOO_LONG)
    ensures polls == map[]
  {
    var store := new PollStore();
    var id;
    result, id := store.CreatePoll(question, options, SignedIn(user), None);
    polls := store.polls;
  }

  /**
   * Another user "updates" a poll: the call reports success, but the write
   * matches no row and the poll keeps its question and options.
   */
  method ForeignUpdateIsSilent(question: string, options: seq<string>, owner: UserId, intruder: UserId,
                               newQuestion: string, newOptions: seq<string>)
    returns (updated: ActionResult, poll: Option<Poll>)
    requires ValidateNewPoll(question, options).Accepted?
    requires owner != intruder
    requires newQuestion != "" && |DropEmpty(newOptions)| >= 2
    ensures updated == Done
    ensures poll == Some(Poll(owner, Sanitize(question), SanitizeAll(DropEmpty(options))))
  {
    var store := new PollStore();
    var created, id := store.CreatePoll(question, options, SignedIn(owner), None);
    updated := store.UpdatePoll(id, newQuestion, newOptions, SignedIn(intruder), None);
    poll := if id in store.polls then Some(store.polls[id]) else None;
  }

  /** The owner's update writes the raw, unsanitised text. */
  method OwnerUpdateIsRaw(question: string, options: seq<string>, owner: UserId,
                          newQuestion: string, newOptions: seq<string>)
    returns (updated: ActionResult, poll: Option<Poll>)
    requires ValidateNewPoll(question, options).Accepted?
    requires newQuestion != "" && |DropEmpty(newOptions)| >= 2
    ensures updated == Done
    ensures poll == Some(Poll(owner, newQuestion, DropEmpty(newOptions)))
  {
    var store := new PollStore();
    var created, id := store.CreatePoll(question, options, SignedIn(owner), None);
    updated := store.UpdatePoll(id, newQuestion, newOptions, SignedIn(owner), None);
    poll := if id in store.polls then Some(store.polls[id]) else None;
  }
}
