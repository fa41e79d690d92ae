/**
 * The `POST /api/user` handler: enrolment, the login challenge and the
 * verification of a guess, over a key-value store with two kinds of entry.
 *
 * The store is one key space. `user:<name>` holds a user record and
 * `challenge:<name>` the track of the challenge last started for that user.
 * Because the two prefixes never produce the same key (lemma KeysSeparate),
 * the store is modelled as two tables, each keyed by the username.
 */
module UserRoute {
  import opened Wrappers
  import opened GuessMatch

  /** A song as the catalog returns it; `previewUrl` may be missing. */
  datatype Track = Track(id: string, name: string, previewUrl: Option<string>)

  /** What is stored at `user:<name>`. */
  datatype UserRecord = UserRecord(songs: seq<Track>, locked: bool)

  /** The JSON body of a request; `guess` and `setupSongs` are optional. */
  datatype Request = Request(username: string, guess: Option<string>, setupSongs: Option<seq<Track>>)

  /** The JSON replies, one constructor per shape. */
  datatype Response =
    | Created                                // { created: true }
    | UnknownUser                            // { exists: false }
    | AccountLocked                          // { locked: true }
    | ChallengeStarted(preview: Option<string>)  // { exists: true, preview }
    | Verified(success: bool)                // { success }

  /** The contents of the store: the entries under `user:` and under `challenge:`. */
  datatype Store = Store(users: map<string, UserRecord>, challenges: map<string, Track>)

  datatype Outcome = Outcome(store: Store, response: Response)

  function UserKey(username: string): string
  {
    "user:" + username
  }

  function ChallengeKey(username: string): string
  {
    "challenge:" + username
  }

  /**
   * The keys a request builds identify its user, and a user key is never a
   * challenge key: writing one entry never touches another user's entries or
   * the other table.
   */
  lemma KeysSeparate(a: string, b: string)
    ensures UserKey(a) == UserKey(b) <==> a == b
    ensures ChallengeKey(a) == ChallengeKey(b) <==> a == b
    ensures UserKey(a) != ChallengeKey(b)
  {
    assert UserKey(a)[5..] == a && UserKey(b)[5..] == b;
    assert ChallengeKey(a)[10..] == a && ChallengeKey(b)[10..] == b;
    assert UserKey(a)[0] != ChallengeKey(b)[0];
  }

  /** JavaScript truthiness of the optional `guess`: absent and `""` are both falsy. */
  predicate Truthy(guess: Option<string>)
  {
    guess.Some? && guess.value != ""
  }

  /** The request reaches the branch that starts a challenge. */
  predicate StartsChallenge(s: Store, req: Request)
  {
    req.username in s.users && !s.users[req.username].locked && !Truthy(req.guess)
  }

  /**
   * `pick` stands for `Math.floor(Math.random() * songs.length)`. When the
   * challenge branch is reached it must index an enrolled song; a user with
   * no songs makes the handler fail there, which the model does not define.
   */
  predicate PickInRange(s: Store, req: Request, pick: nat)
  {
    StartsChallenge(s, req) ==> pick < |s.users[req.username].songs|
  }

  /** The guess matches the challenge stored for the requesting user. */
  predicate MatchesChallenge(s: Store, req: Request)
  {
    Truthy(req.guess) && req.username in s.challenges
    && GuessMatches(req.guess.value, s.challenges[req.username].name)
  }

  /**
   * One request: the first applicable branch decides the reply and the writes.
   * The contract states what holds whatever the branch: the request touches
   * only its own user's entries, enrolled songs are never replaced, no user is
   * removed, a lock is never lifted, and an unlocked record is written only
   * when a new user is created.
   */
  function Handle(s: Store, req: Request, pick: nat): (out: Outcome)
    requires PickInRange(s, req, pick)
    ensures out.store.users - {req.username} == s.users - {req.username}
    ensures out.store.challenges - {req.username} == s.challenges - {req.username}
    ensures forall n :: n in s.users ==> n in out.store.users && out.store.users[n].songs == s.users[n].songs
    ensures forall n :: n in s.users && s.users[n].locked ==> out.store.users[n].locked
    ensures forall n :: n in out.store.users && !out.store.users[n].locked ==>
      (n in s.users && !s.users[n].locked) || (out.response == Created && n == req.username && n !in s.users)
    ensures req.username !in out.store.users ==> out.store == s
  {
    var name := req.username;
    var user := Get(s.users, name);
    if user.None? && req.setupSongs.Some? then
      Outcome(s.(users := s.users[name := UserRecord(req.setupSongs.value, false)]), Created)
    else if user.None? then
      Outcome(s, UnknownUser)
    else if user.value.locked then
      Outcome(s, AccountLocked)
    else if !Truthy(req.guess) then
      var song := user.value.songs[pick];
      Outcome(s.(challenges := s.challenges[name := song]), ChallengeStarted(song.previewUrl))
    else if MatchesChallenge(s, req) then
      Outcome(s, Verified(true))
    else
      Outcome(s.(users := s.users[name := user.value.(locked := true)]), Verified(false))
  }

  /** The store as the handler sees it, with the two tables it reads and writes. */
  class Kv {
    var users: map<string, UserRecord>
    var challenges: map<string, Track>

    function Contents(): Store
      reads this
    {
      Store(users, challenges)
    }

    constructor ()
      ensures Contents() == Store(map[], map[])
    {
      users, challenges := map[], map[];
    }

    /** The `POST` handler: reads the user, then writes at most one entry and replies. */
    method Post(req: Request, pick: nat) returns (resp: Response)
      requires PickInRange(Contents(), req, pick)
      modifies this
      ensures Outcome(Contents(), resp) == Handle(old(Contents()), req, pick)
    {
      var name := req.username;
      var user := Get(users, name);

      if user.None? && req.setupSongs.Some? {
        users := users[name := UserRecord(req.setupSongs.value, false)];
        return Created;
      }

      if user.None? {
        return UnknownUser;
      }

      if user.value.locked {
        return AccountLocked;
      }

      if !Truthy(req.guess) {
        var song := user.value.songs[pick];
        challenges := challenges[name := song];
        return ChallengeStarted(song.previewUrl);
      }

      var challenge := Get(challenges, name);
      if challenge.Some? && GuessMatches(req.guess.value, challenge.value.name) {
        return Verified(true);
      }

      users := users[name := user.value.(locked := true)];
      return Verified(false);
    }
  }
}
