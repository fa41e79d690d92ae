# MuFA user route, modelled in Dafny

MuFA ("music-factor authentication") lets a user enrol songs they would
recognise and later log in by naming a song from a short audio preview. All
server-side logic sits in the `POST /api/user` handler. It works over a
key-value store with two kinds of entry: `user:<name>` holds the user record
(`songs`, `locked`), and `challenge:<name>` holds the track of the challenge
last started for that user.

A request carries `username`, an optional `guess` and optional `setupSongs`.
The handler tries its branches in a fixed order, and the first one that
applies decides the reply:

1. no record and `setupSongs` present: store `{songs, locked: false}` and reply `created`;
2. no record: reply `exists: false`;
3. locked record: reply `locked: true`;
4. `guess` missing or empty: store a randomly drawn enrolled song as the challenge and reply with its preview;
5. otherwise compare the guess with the challenge name, both trimmed and lower-cased. A match replies `success: true`. Anything else, including a guess when no challenge was started, rewrites the record with `locked: true` and replies `success: false`.

Files:

- `wrappers.dfy`: `Option`, and `Get`, a store read that returns `None` for a missing key.
- `guess_match.dfy` (module `GuessMatch`): the comparison `trim().toLowerCase()`, with lemmas about it.
- `user_route.dfy` (module `UserRoute`): the entities, the key construction, the handler as the pure function `Handle`, and the class `Kv`. `Kv` holds the two tables, and its `Post` method updates them in place. `Post` is proved to compute exactly what `Handle` computes.
- `user_route_properties.dfy` (module `UserRouteProperties`): what each branch guarantees, and invariants over any sequence of requests.

The design notes of the project describe a richer protocol than the source has: several steps per session, a decoy clip, a replay budget and unlock by password. None of that appears in the handler. This model follows the code: one challenge, no decoy, no unlock, and a challenge that is never deleted.

## Model

| member | source | states |
|---|---|---|
| GuessMatch.SkipLeading | src/app/api/user/route.ts:77-78 | the index where `trim` starts: everything before it is white space, and the character there is not |
| GuessMatch.SkipTrailing | src/app/api/user/route.ts:77-78 | the index where `trim` ends: everything from it on is white space, and the character before it is not |
| GuessMatch.Trim | src/app/api/user/route.ts:77-78 | the trimmed string neither starts nor ends with white space |
| GuessMatch.TrimSplits | src/app/api/user/route.ts:77-78 | every string is leading white space, its trimmed form, and trailing white space |
| GuessMatch.TrimUnique | src/app/api/user/route.ts:77-78 | `trim` returns exactly the core of a string, whatever white space surrounds it |
| GuessMatch.LowerChar | src/app/api/user/route.ts:77-78 | an ASCII capital becomes its own small letter (read off the alphabet), every other character is kept, and white space is preserved |
| GuessMatch.LowerEqual | src/app/api/user/route.ts:77-78 | two strings lower-case alike exactly when they are equal up to the case of ASCII letters |
| GuessMatch.GuessMatchesExactly | src/app/api/user/route.ts:77-78 | a guess matches a name exactly when the two trimmed strings are equal up to ASCII case, so any other difference fails |
| GuessMatch.TrimLowerCommute | src/app/api/user/route.ts:77-78 | trimming and lower-casing commute |
| GuessMatch.NormalizeIgnoresPadding | src/app/api/user/route.ts:77-78 | white space added around a guess or a name does not change its normal form |
| GuessMatch.NormalizeIgnoresCase | src/app/api/user/route.ts:77-78 | strings equal up to the case of ASCII letters have the same normal form |
| GuessMatch.PaddedRecasedTitleMatches | src/app/api/user/route.ts:77-78 | the guess " HELP\n" matches the song name "Help" |
| GuessMatch.OtherTitleDoesNotMatch | src/app/api/user/route.ts:77-78 | the guess "Hell", of the same length, does not match the song name "Help" |
| UserRoute.KeysSeparate | src/app/api/user/route.ts:23-24 | user keys and challenge keys are each one-to-one in the username, and no user key is a challenge key |
| UserRoute.Handle | src/app/api/user/route.ts:14-87 | any request touches only its own user's two entries, never removes a user, never replaces enrolled songs, never lifts a lock, and writes an unlocked record only when it creates a user |
| UserRoute.Kv.Post | src/app/api/user/route.ts:14-87 | updating the two tables in place yields exactly the new store and reply of `Handle` |
| UserRouteProperties.EnrolStoresNewRecord | src/app/api/user/route.ts:31-39 | a new user with `setupSongs` is stored as exactly those songs, unlocked, the reply is `created`, and the challenges are untouched |
| UserRouteProperties.EnrolNeverOverwrites | src/app/api/user/route.ts:31 | for an existing user, `setupSongs` is ignored, the reply is never `created`, and the record keeps its songs (it can at most become locked) |
| UserRouteProperties.UnknownUserIsNoop | src/app/api/user/route.ts:44-46 | an unknown user without `setupSongs` gets `exists: false` and the store is unchanged |
| UserRouteProperties.LockedAccountIsFrozen | src/app/api/user/route.ts:51-53 | a locked user gets `locked: true` to any request and the store is unchanged |
| UserRouteProperties.ChallengeStartPicksEnrolledSong | src/app/api/user/route.ts:58-68 | starting a challenge stores the drawn enrolled song, replies with its preview, and leaves the user records unchanged |
| UserRouteProperties.EmptyGuessRestartsChallenge | src/app/api/user/route.ts:58 | an empty guess is handled exactly like a missing one, so it starts a new challenge |
| UserRouteProperties.MatchingGuessWritesNothing | src/app/api/user/route.ts:73-80 | a matching guess replies `success: true` and the store is unchanged |
| UserRouteProperties.RepeatedMatchSucceeds | src/app/api/user/route.ts:73-80 | since success deletes nothing, the same guess succeeds again with the same outcome |
| UserRouteProperties.FailedGuessLocks | src/app/api/user/route.ts:75-86 | a non-matching guess, or a guess with no challenge stored, locks the record, keeps its songs and the challenges, and replies `success: false` |
| UserRouteProperties.VerdictExactly | src/app/api/user/route.ts:51-86 | the reply is `success: true` exactly when an unlocked user's guess matches the stored challenge, and `success: false` exactly when an unlocked user's non-empty guess does not |
| UserRouteProperties.LockIsPermanent | src/app/api/user/route.ts:51-53 | after any sequence of requests, a locked user's record and challenge entry are as they were |
| UserRouteProperties.EnrolmentIsPermanent | src/app/api/user/route.ts:31-39 | after any sequence of requests, an enrolled user is still enrolled with the same songs, and still locked if locked before |
| UserRouteProperties.HandleKeepsChallengesEnrolled | src/app/api/user/route.ts:58-62 | if every stored challenge is one of its user's songs before a request, the same holds after it |
| UserRouteProperties.RunKeepsChallengesEnrolled | src/app/api/user/route.ts:58-62 | the same holds after any sequence of requests |
| UserRouteProperties.SuccessNamesEnrolledSong | src/app/api/user/route.ts:73-80 | under that invariant, a successful login means the guess matched one of the user's enrolled songs |
| UserRouteProperties.LoginThenLockout | src/app/api/user/route.ts:31-86 | enrol, start a challenge, answer correctly and then wrongly: the replies are `created`, the preview, `success: true`, `success: false`, and then `locked: true` |

## Left out

- The `@vercel/kv` transport, request JSON parsing and `Response.json` serialisation are I/O. The store is two in-memory maps, and the reply is the `Response` datatype.
- `Math.random` (route.ts:60) becomes the parameter `pick`. The precondition `PickInRange` requires it to index an enrolled song whenever the challenge branch is reached. The distribution is not modelled.
- A user enrolled with an empty `setupSongs` list draws an undefined song in the challenge branch. Line 62 then writes that undefined value to `challenge:<name>` (or the store client rejects it there), and line 66 throws on `song.preview_url`. So the request fails, and the challenge entry may already have been overwritten. `PickInRange` cannot be met for such a user, so the model gives this case no behaviour, neither the failed write nor the partial one.
- The server does not check that exactly five songs are enrolled. Only the setup page enforces it (src/app/setup/page.tsx:94, src/app/setup/page.tsx:110). The model accepts any list, including duplicates.
- GuessMatch.LowerChar: lower-cases only ASCII `A`-`Z`. JavaScript's `toLowerCase` also maps non-ASCII letters and can change a string's length. `trim` is modelled exactly: it removes ECMAScript white space (TAB, VT, FF, ZWNBSP, Unicode category Zs) and line terminators. Dafny characters are Unicode scalar values, whereas JavaScript strings are UTF-16 code units.
- Request bodies whose fields do not have their declared types (a non-string `guess`, a missing `username`) are not modelled. `guess: null` behaves like an absent guess.
- Concurrent requests racing on the same keys are not modelled. The read at line 26 and the writes after it are not atomic.
- The React pages, `tailwind.config.ts`, and the Spotify, Deezer and preview-proxy routes are UI or network glue, and they are not part of this model.
- Sessions with several steps, a decoy clip, a replay budget, per-step timeouts and unlock by password are described in the design but implemented nowhere in the source, so they are not modelled.
