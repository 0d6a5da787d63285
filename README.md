# alx-polly request-integrity core in Dafny

alx-polly is a polling web application. This project models three server-side
pieces of it and proves their properties:

- **Poll actions** (`app/lib/actions/poll-actions.ts`):
  - the input sanitiser, which strips `<` and `>` and then trims;
  - the validation `createPoll` runs before it writes;
  - the four mutating actions `createPoll`, `submitVote`, `deletePoll` and `updatePoll`.

  The hosted polls and votes tables are the class `PollActions.PollStore`: a map of
  polls keyed by id, and the votes as a sequence of rows in insertion order. The
  session lookup is an input `Auth` (an error, no user, or a user id). The error a
  datastore write may report is an input `storeError`.
- **The double-submit CSRF token** (`app/lib/csrf.ts`). The class
  `Csrf.CsrfGuard` holds one caller's `csrf_token` cookie as a mutable optional
  field. SHA-256 is the uninterpreted function `digest`. The random bytes and
  `Date.now()` are parameters.
- **The fixed-window rate limiter and the password policy** (`app/lib/utils.ts`).
  The process-wide `rateLimitStore` is the class `Utils.RateLimiter` over a
  `map<string, Entry>`. Its method is proved against the pure step function
  `Utils.Attempt`. `validatePassword` is a pure function.

Files:

- `wrappers.dfy`: the `Option` type.
- `poll_actions.dfy`: module `PollActions`.
- `csrf.dfy`: module `Csrf`.
- `utils.dfy`: module `Utils`.

Behaviours of the code worth noting, all kept in the model:

- Both expiry tests are strict. A CSRF token is still valid exactly 24 hours
  after issue (`app/lib/csrf.ts:44`). A rate-limit window is still open exactly
  15 minutes after it started (`app/lib/utils.ts:23`).
- `submitVote` does not check `optionIndex` against the poll's options. The
  model stores whatever integer index is sent
  (`app/lib/actions/poll-actions.ts:115-121`).
- `createPoll` drops empty options before sanitising, not after. An option made
  only of brackets, such as `<>`, is kept and stored as the empty string
  (`app/lib/actions/poll-actions.ts:18-20`).
- `updatePoll` runs no not-found or not-owner check. Its write is filtered by id
  and owner, so a stranger's update changes nothing and still reports success.
  It neither sanitises nor length-checks its input
  (`app/lib/actions/poll-actions.ts:160-190`).
- `submitVote` and `deletePoll` read only the user from the session lookup, so
  a session error behaves like "not signed in". `createPoll` and `updatePoll`
  report the session error's message.
- The duplicate-vote query uses `.single()`, which yields a row only when
  exactly one row matches. The model therefore refuses a vote when exactly one
  earlier vote matches. The store's invariant `PollStore.Valid()` includes at
  most one vote per user and poll (`UniqueVotes`). `submitVote` keeps that
  invariant, and under it "exactly one match" is the same as "has voted".

## Model

| member | source | states |
|---|---|---|
| PollActions.StripAngles | app/lib/actions/poll-actions.ts:9 | the result contains no `<` or `>`, and a string without brackets is returned unchanged |
| PollActions.StripAnglesAppend | app/lib/actions/poll-actions.ts:9 | stripping a concatenation is the concatenation of the stripped parts, so the kept characters stay in their original order |
| PollActions.StripAnglesKeepsOthers | app/lib/actions/poll-actions.ts:9 | every character other than a bracket occurs in the result exactly as often as in the input |
| PollActions.TrimStart | app/lib/actions/poll-actions.ts:10 | the result is a suffix of the input that does not start with a whitespace or line-terminator character |
| PollActions.TrimEnd | app/lib/actions/poll-actions.ts:10 | the result is a prefix of the input that does not end with a whitespace or line-terminator character |
| PollActions.TrimStartDropsTrimmable | app/lib/actions/poll-actions.ts:10 | every character dropped from the front is whitespace or a line terminator |
| PollActions.TrimEndDropsTrimmable | app/lib/actions/poll-actions.ts:10 | every character dropped from the back is whitespace or a line terminator |
| PollActions.Trim | app/lib/actions/poll-actions.ts:10 | the result is no longer than the input, and neither end is whitespace |
| PollActions.TrimKeepsSlice | app/lib/actions/poll-actions.ts:10 | the trimmed string is the contiguous slice of the input that starts where the leading whitespace ends |
| PollActions.TrimDropsTrailing | app/lib/actions/poll-actions.ts:10 | every character after the kept slice is whitespace |
| PollActions.TrimIsSlice | app/lib/actions/poll-actions.ts:10 | trimming keeps one slice of the input, and only whitespace lies outside it on either side |
| PollActions.TrimOfTrimmed | app/lib/actions/poll-actions.ts:10 | a string with no whitespace at either end is its own trim |
| PollActions.SliceAngleFree | app/lib/actions/poll-actions.ts:7-11 | a slice of a bracket-free string is bracket-free, so trimming cannot reintroduce a bracket |
| PollActions.Sanitize | app/lib/actions/poll-actions.ts:7-11 | the sanitised string has no `<` or `>`, and no whitespace at either end |
| PollActions.SanitizeFixedPoint | app/lib/actions/poll-actions.ts:7-11 | a bracket-free string with no whitespace at either end is left unchanged by the sanitiser |
| PollActions.SanitizeIdempotent | app/lib/actions/poll-actions.ts:7-11 | sanitising twice gives the same string as sanitising once |
| PollActions.BracketsSanitizeToEmpty | app/lib/actions/poll-actions.ts:7-11 | a string made only of brackets sanitises to the empty string |
| PollActions.DropEmpty | app/lib/actions/poll-actions.ts:19 | `filter(Boolean)` keeps no empty string, is never longer than its input, and keeps a list with no empty string unchanged |
| PollActions.DropEmptyAppend | app/lib/actions/poll-actions.ts:19 | filtering a concatenation is the concatenation of the filtered parts, so the kept options stay in their original order |
| PollActions.DropEmptyKeepsOthers | app/lib/actions/poll-actions.ts:19 | every non-empty string occurs in the filtered list exactly as often as in the input |
| PollActions.SanitizeAll | app/lib/actions/poll-actions.ts:20 | `map(sanitizeInput)` keeps the length and sanitises each option in place, preserving order |
| PollActions.CheckPollInput | app/lib/actions/poll-actions.ts:22-32 | checks in a fixed order. It reports the missing-fields error iff the question is empty or there are fewer than two options. It reports the question-too-long error iff that check passed and the question exceeds 500. It reports the option-too-long error iff both passed and some option exceeds 200. It accepts iff all pass, and then yields exactly the given question and options |
| PollActions.ValidateNewPoll | app/lib/actions/poll-actions.ts:17-32 | the missing-fields error is given iff the sanitised question is empty or fewer than two raw options are non-empty. Whatever is accepted is the sanitised question and the filtered, sanitised options in order. The question is non-empty, bracket-free and at most 500 long. There are at least two options, each bracket-free and at most 200 long |
| PollActions.QuestionLengthBoundary | app/lib/actions/poll-actions.ts:26-28 | with acceptable options, a sanitised question of exactly 500 characters passes and one of 501 is refused as too long |
| PollActions.OptionLengthLimit | app/lib/actions/poll-actions.ts:30-32 | with an acceptable question, one sanitised option longer than 200 is enough to refuse the poll |
| PollActions.FilterBeforeSanitize | app/lib/actions/poll-actions.ts:18-20 | options that are non-empty as typed all survive the filter, whatever the sanitiser later makes of them |
| PollActions.BracketOptionsSanitized | app/lib/actions/poll-actions.ts:18-20 | a bracket-only option and a non-empty option both survive the filter, and the first is sanitised to the empty string |
| PollActions.TwoOptionsAccepted | app/lib/actions/poll-actions.ts:22-32 | a question and two options within their limits pass the checks and are used unchanged |
| PollActions.BracketOnlyOptionIsKept | app/lib/actions/poll-actions.ts:17-32 | a poll whose options are a bracket-only string and an acceptable option is accepted with an empty first option |
| PollActions.CountVotes | app/lib/actions/poll-actions.ts:104-109 | the number of vote rows matching a poll and a user never exceeds the number of rows |
| PollActions.CountVotesPositive | app/lib/actions/poll-actions.ts:104-111 | the count of matching rows is positive iff some row matches the poll and the user |
| PollActions.SingleMatchIsHasVoted | app/lib/actions/poll-actions.ts:104-111 | when every user has at most one vote per poll, exactly one match means the user has voted |
| PollActions.CountAfterAppend | app/lib/actions/poll-actions.ts:115-121 | appending a row raises the count of exactly the pair that row belongs to, by one |
| PollActions.AppendKeepsUnique | app/lib/actions/poll-actions.ts:111-121 | appending a vote for a pair with no vote yet keeps at most one vote per pair |
| PollActions.PollStore.constructor | app/lib/actions/poll-actions.ts:15 | the store starts with no polls and no votes, and satisfies its invariant |
| PollActions.PollStore.CreatePoll | app/lib/actions/poll-actions.ts:14-60 | the order is validation error, session error, no user, write error. On each failure the polls table and the id counter are unchanged. Otherwise exactly one poll is added under a fresh id, owned by the caller, with the sanitised question and options in order. Votes are unchanged |
| PollActions.PollStore.SubmitVote | app/lib/actions/poll-actions.ts:94-125 | a caller who is not signed in gets the login error and no row is written. One matching earlier vote gives "already voted" and no row is written. Otherwise a write error is returned, or exactly the row (poll, user, optionIndex) is appended. The store invariant, which includes at most one vote per user and poll, is required and preserved. Under it a user who has voted on the poll is always refused |
| PollActions.PollStore.DeletePoll | app/lib/actions/poll-actions.ts:128-154 | login, then existence, then ownership, then the write error, each with its message. Every failure leaves the table unchanged. Success removes exactly that poll and nothing else |
| PollActions.PollStore.UpdatePoll | app/lib/actions/poll-actions.ts:157-191 | an empty raw question or fewer than two non-empty raw options gives the missing-fields error. Then the session error, no user, or the write error is reported, and otherwise success. The table changes only for the owner's own existing poll, which gets the raw question and the filtered raw options. A stranger's call changes nothing and still succeeds |
| PollActions.OnlyOwnerDeletes | app/lib/actions/poll-actions.ts:128-149 | after one user creates a poll, another user's delete is refused as not the owner, and the poll stays as created |
| PollActions.SecondVoteRefused | app/lib/actions/poll-actions.ts:94-125 | on a new poll a user's first vote is recorded and their second is refused. Another user's vote for an option index the poll does not have is recorded as sent |
| PollActions.AnonymousVoteRefused | app/lib/actions/poll-actions.ts:101 | a caller without a session cannot vote, and no row is written |
| PollActions.LongQuestionRefused | app/lib/actions/poll-actions.ts:26-28 | a question 501 characters long after sanitising is refused, and no poll is written |
| PollActions.ForeignUpdateIsSilent | app/lib/actions/poll-actions.ts:180-190 | another user's update of a poll reports success but leaves the poll as created |
| PollActions.OwnerUpdateIsRaw | app/lib/actions/poll-actions.ts:157-191 | the owner's update stores the raw question and the filtered raw options, unsanitised |
| Csrf.HexDigit | app/lib/csrf.ts:15 | every nibble becomes a lower-case hexadecimal digit |
| Csrf.HexDigitInjective | app/lib/csrf.ts:15 | different nibbles give different digits |
| Csrf.HexEncode | app/lib/csrf.ts:15 | `toString('hex')` gives two lower-case hexadecimal digits per byte |
| Csrf.HexEncodeInjective | app/lib/csrf.ts:15 | different random bytes give different secrets |
| Csrf.SecretLength | app/lib/csrf.ts:5-15 | a secret from 32 random bytes is 64 characters long |
| Csrf.CsrfGuard.constructor | app/lib/csrf.ts:34 | a guard holds the given digest function, which yields 64 characters for every input as a SHA-256 hex digest does, and the caller's cookie as sent |
| Csrf.CsrfGuard.GenerateToken | app/lib/csrf.ts:14-30 | the cookie is overwritten with the new secret, the issue time and a max-age of 86400 seconds, and the digest of the secret, 64 characters long, is returned. Afterwards a token validates iff it is that digest and at most 24 hours have passed |
| Csrf.CsrfGuard.ValidateToken | app/lib/csrf.ts:33-54 | fails closed: false with no cookie, with an unparsable cookie, or when more than 24 hours have passed. It is true exactly when the token equals the digest of the stored secret within the window |
| Csrf.CsrfGuard.CsrfProtection | app/lib/csrf.ts:57-65 | GET and HEAD always pass, whatever the header. Any other method passes iff the `X-CSRF-Token` header is present, non-empty and validates. Every rejection is status 403 with body "Invalid CSRF token" |
| Csrf.IssueThenPost | app/lib/csrf.ts:14-65 | after a token is issued, a POST with it passes within a day. A POST with any other token, or a DELETE with none, is answered 403. A GET with no header passes |
| Csrf.ExpiredTokenRefused | app/lib/csrf.ts:44-46 | the genuine token validates exactly 86,400,000 ms after issue and is refused one millisecond later |
| Utils.Attempt | app/lib/utils.ts:13-33 | for an unseen identifier, or one past its 15-minute window, the entry becomes (1, now) and the call passes. Inside the window the count goes up by exactly one and the window start is kept. The answer is whether the count now exceeds 5. No other identifier's entry is touched. Every entry keeps at least one attempt |
| Utils.Replay | app/lib/utils.ts:13-33 | a sequence of calls for one identifier yields one answer per call |
| Utils.ReplayCounts | app/lib/utils.ts:17-30 | for an unseen identifier, calls within the first call's window leave the entry (number of calls, time of the first call) |
| Utils.LastAnswer | app/lib/utils.ts:17-32 | under the same conditions the n-th call is refused exactly when n exceeds 5 |
| Utils.Threshold | app/lib/utils.ts:17-32 | under the same conditions calls one to five pass and every call from the sixth on is refused |
| Utils.WindowReset | app/lib/utils.ts:23-26 | a call more than 15 minutes after the window opened resets the entry to (1, now) and passes |
| Utils.NoResetAtWindowEdge | app/lib/utils.ts:23 | exactly 900,000 ms after the window opened, the count goes up and the window is not reset |
| Utils.RateLimiter.constructor | app/lib/utils.ts:11 | the table starts empty |
| Utils.RateLimiter.IsRateLimited | app/lib/utils.ts:13-33 | the table and the answer are exactly those of one `Attempt` on the previous table. Every entry keeps at least one attempt |
| Utils.Matches | app/lib/utils.ts:40-52 | a character-class test succeeds iff some character of the password belongs to the class |
| Utils.ValidatePassword | app/lib/utils.ts:35-57 | valid iff the password is at least 8 long and has an upper-case letter, a lower-case letter, a digit and one of `!@#$%^&*`. Valid iff there is no error. Each error message is reported iff every earlier check passes and its own check fails, in the order length, upper, lower, digit, special |

## Left out

- The Supabase client (`createClient`, `auth.getUser`, the query builder and its network behaviour). It is replaced by the store class, the `Auth` input and the `storeError` input. Poll ids come from a counter standing for the database's generated key. The model's reads always succeed. In the source a failed read is not told apart from an empty result: a failed duplicate-vote query in `submitVote` lets the vote be inserted (`app/lib/actions/poll-actions.ts:104-111`), and a failed lookup in `deletePoll` reports "Poll not found." (`app/lib/actions/poll-actions.ts:137-145`).
- `getUserPolls` and `getPollById`, which pass a query straight through to the datastore, with no decision of their own.
- `revalidatePath`, a cache side effect with no observable logic.
- The `created_at` column and its ordering, and whatever the database does to votes when a poll is deleted. Neither is visible in the source.
- Concurrency:
  - the race between the duplicate-vote query and the insert in `submitVote`;
  - lost updates on the shared rate-limit table.

  Calls are modelled as sequential, and nothing is claimed about atomicity.
- `PollActions.PollStore.SubmitVote`: `optionIndex` is a JavaScript `number` and reaches the insert unchanged. The model takes it as an integer, so fractional values and `NaN` are not modelled.
- Form fields that are missing (`null`) or are files rather than strings. The model takes the question and every option as strings.
- String lengths are counted in characters. JavaScript counts UTF-16 code units, which differ only for characters outside the Basic Multilingual Plane.
- SHA-256 and `randomBytes` are not modelled: the digest is an uninterpreted function and the random bytes are an input.
- JSON text of the cookie. It is modelled by what parsing yields, a record or a failure. A parsed record whose fields have other types is not modelled.
- The cookie attributes `httpOnly`, `secure`, `sameSite` and `path`. They are browser settings; only `maxAge` is modelled.
- `Date.now()` is the parameter `now`. Nothing is assumed about its monotonicity.
- `middleware.ts` is not part of this model. It returns `csrfProtection`'s response when there is one and otherwise hands the request on. That short-circuit is what a `Some` result of `Csrf.CsrfGuard.CsrfProtection` stands for.
- `Utils.RateLimiter.IsRateLimited`: `entry.attempts++` mutates the object held in the map in place, which the model writes as storing an updated value. No other reference to that object exists, so nothing observable is lost.
