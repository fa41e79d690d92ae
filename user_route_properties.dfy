/** What the `POST /api/user` handler guarantees, one request at a time and over any sequence of requests. */
module UserRouteProperties {
  import opened Wrappers
  import opened GuessMatch
  import opened UserRoute

  // ---------------------------------------------------------------------------
  // One request
  // ---------------------------------------------------------------------------

  /** Enrolment of a new user stores exactly the supplied songs, unlocked, and nothing else. */
  lemma EnrolStoresNewRecord(s: Store, req: Request, pick: nat)
    requires req.username !in s.users && req.setupSongs.Some?
    ensures var out := Handle(s, req, pick);
      && out.response == Created
      && out.store.users == s.users[req.username := UserRecord(req.setupSongs.value, false)]
      && out.store.challenges == s.challenges
  {
  }

  /**
   * An existing user is never re-enrolled: `setupSongs` is ignored, the request
   * is handled as if it carried none, and the stored record keeps its songs.
   */
  lemma EnrolNeverOverwrites(s: Store, req: Request, pick: nat)
    requires req.username in s.users
    requires PickInRange(s, req, pick)
    ensures Handle(s, req, pick) == Handle(s, req.(setupSongs := None), pick)
    ensures var out := Handle(s, req, pick);
      && out.response != Created
      && (out.store.users[req.username] == s.users[req.username]
          || out.store.users[req.username] == s.users[req.username].(locked := true))
  {
  }

  /** An unknown user without `setupSongs` gets `exists: false` and the store is untouched. */
  lemma UnknownUserIsNoop(s: Store, req: Request, pick: nat)
    requires req.username !in s.users && req.setupSongs.None?
    ensures Handle(s, req, pick) == Outcome(s, UnknownUser)
  {
  }

  /** A locked account answers `locked: true` to every request and nothing is written. */
  lemma LockedAccountIsFrozen(s: Store, req: Request, pick: nat)
    requires req.username in s.users && s.users[req.username].locked
    ensures Handle(s, req, pick) == Outcome(s, AccountLocked)
  {
  }

  /**
   * Starting a challenge stores one of the user's enrolled songs (the one
   * `pick` selects), replies with that song's preview and leaves the user
   * records as they were.
   */
  lemma ChallengeStartPicksEnrolledSong(s: Store, req: Request, pick: nat)
    requires StartsChallenge(s, req) && PickInRange(s, req, pick)
    ensures var out := Handle(s, req, pick);
      var songs := s.users[req.username].songs;
      && req.username in out.store.challenges
      && out.store.challenges[req.username] in songs
      && out.store.challenges[req.username] == songs[pick]
      && out.response == ChallengeStarted(out.store.challenges[req.username].previewUrl)
      && out.store.users == s.users
  {
  }

  /** An empty guess is falsy: it restarts the challenge exactly as a missing guess does. */
  lemma EmptyGuessRestartsChallenge(s: Store, req: Request, pick: nat)
    requires req.guess == Some("")
    requires PickInRange(s, req, pick)
    ensures Handle(s, req, pick) == Handle(s, req.(guess := None), pick)
    ensures StartsChallenge(s, req) ==> Handle(s, req, pick).response.ChallengeStarted?
  {
  }

  /** A guess matching the stored challenge succeeds and writes nothing. */
  lemma MatchingGuessWritesNothing(s: Store, req: Request, pick: nat)
    requires req.username in s.users && !s.users[req.username].locked
    requires MatchesChallenge(s, req)
    ensures Handle(s, req, pick) == Outcome(s, Verified(true))
  {
  }

  /** The challenge is not consumed by a success: the same guess succeeds again. */
  lemma RepeatedMatchSucceeds(s: Store, req: Request, pick: nat, pick': nat)
    requires req.username in s.users && !s.users[req.username].locked
    requires MatchesChallenge(s, req)
    ensures var out := Handle(s, req, pick);
      PickInRange(out.store, req, pick') && Handle(out.store, req, pick') == out
  {
    MatchingGuessWritesNothing(s, req, pick);
  }

  /**
   * Any other guess, including a guess when no challenge was started, locks the
   * account, keeps its songs, leaves the challenges alone and fails.
   */
  lemma FailedGuessLocks(s: Store, req: Request, pick: nat)
    requires req.username in s.users && !s.users[req.username].locked
    requires Truthy(req.guess) && !MatchesChallenge(s, req)
    ensures var out := Handle(s, req, pick);
      && out.response == Verified(false)
      && out.store.users == s.users[req.username := UserRecord(s.users[req.username].songs, true)]
      && out.store.challenges == s.challenges
  {
  }

  /** Login succeeds exactly when an unlocked user's guess matches the stored challenge, and fails exactly otherwise among guesses. */
  lemma VerdictExactly(s: Store, req: Request, pick: nat)
    requires PickInRange(s, req, pick)
    ensures var r := Handle(s, req, pick).response;
      && (r == Verified(true) <==>
            req.username in s.users && !s.users[req.username].locked && MatchesChallenge(s, req))
      && (r == Verified(false) <==>
            req.username in s.users && !s.users[req.username].locked && Truthy(req.guess) && !MatchesChallenge(s, req))
  {
  }

  // ---------------------------------------------------------------------------
  // Sequences of requests
  // ---------------------------------------------------------------------------

  /** Every request in the sequence, in the store the previous ones leave, has its `pick` in range. */
  predicate Runnable(s: Store, reqs: seq<Request>, picks: seq<nat>)
    decreases |reqs|
  {
    && |picks| == |reqs|
    && (reqs != [] ==>
          && PickInRange(s, reqs[0], picks[0])
          && Runnable(Handle(s, reqs[0], picks[0]).store, reqs[1..], picks[1..]))
  }

  /** The store after handling the requests one after another. */
  function Run(s: Store, reqs: seq<Request>, picks: seq<nat>): Store
    requires Runnable(s, reqs, picks)
    decreases |reqs|
  {
    if reqs == [] then s else Run(Handle(s, reqs[0], picks[0]).store, reqs[1..], picks[1..])
  }

  /** Whatever follows, a locked account keeps its record and its challenge entry as they are. */
  lemma {:induction false} LockIsPermanent(s: Store, reqs: seq<Request>, picks: seq<nat>, name: string)
    requires Runnable(s, reqs, picks)
    requires name in s.users && s.users[name].locked
    ensures var t := Run(s, reqs, picks);
      && name in t.users && t.users[name] == s.users[name]
      && Get(t.challenges, name) == Get(s.challenges, name)
    decreases |reqs|
  {
    if reqs != [] {
      var out := Handle(s, reqs[0], picks[0]);
      if reqs[0].username == name {
        LockedAccountIsFrozen(s, reqs[0], picks[0]);
      } else {
        assert out.store.users[name] == (out.store.users - {reqs[0].username})[name];
        assert Get(out.store.challenges, name) == Get(out.store.challenges - {reqs[0].username}, name);
        assert Get(s.challenges, name) == Get(s.challenges - {reqs[0].username}, name);
      }
      LockIsPermanent(out.store, reqs[1..], picks[1..], name);
    }
  }

  /** Once enrolled, a user stays enrolled with the same songs, and a lock once set stays set. */
  lemma {:induction false} EnrolmentIsPermanent(s: Store, reqs: seq<Request>, picks: seq<nat>, name: string)
    requires Runnable(s, reqs, picks)
    requires name in s.users
    ensures var t := Run(s, reqs, picks);
      && name in t.users && t.users[name].songs == s.users[name].songs
      && (s.users[name].locked ==> t.users[name].locked)
    decreases |reqs|
  {
    if reqs != [] {
      EnrolmentIsPermanent(Handle(s, reqs[0], picks[0]).store, reqs[1..], picks[1..], name);
    }
  }

  /** Every stored challenge is one of its user's enrolled songs. */
  predicate ChallengesEnrolled(s: Store)
  {
    forall name :: name in s.challenges ==> name in s.users && s.challenges[name] in s.users[name].songs
  }

  lemma HandleKeepsChallengesEnrolled(s: Store, req: Request, pick: nat)
    requires ChallengesEnrolled(s) && PickInRange(s, req, pick)
    ensures ChallengesEnrolled(Handle(s, req, pick).store)
  {
  }

  /** Starting from an empty store (or any store where it holds), every challenge ever stored is an enrolled song. */
  lemma {:induction false} RunKeepsChallengesEnrolled(s: Store, reqs: seq<Request>, picks: seq<nat>)
    requires ChallengesEnrolled(s) && Runnable(s, reqs, picks)
    ensures ChallengesEnrolled(Run(s, reqs, picks))
    decreases |reqs|
  {
    if reqs != [] {
      HandleKeepsChallengesEnrolled(s, reqs[0], picks[0]);
      RunKeepsChallengesEnrolled(Handle(s, reqs[0], picks[0]).store, reqs[1..], picks[1..]);
    }
  }

  /** So a successful login means the guess named one of the user's enrolled songs. */
  lemma SuccessNamesEnrolledSong(s: Store, req: Request, pick: nat)
    requires ChallengesEnrolled(s) && PickInRange(s, req, pick)
    requires Handle(s, req, pick).response == Verified(true)
    ensures exists k :: (0 <= k < |s.users[req.username].songs|
      && GuessMatches(req.guess.value, s.users[req.username].songs[k].name))
  {
    VerdictExactly(s, req, pick);
    var songs := s.users[req.username].songs;
    var k :| 0 <= k < |songs| && songs[k] == s.challenges[req.username];
  }

  // ---------------------------------------------------------------------------
  // A login, end to end
  // ---------------------------------------------------------------------------

  /**
   * A user enrols, asks for a challenge, answers it correctly (success, with
   * the store as before, so the same answer would succeed again), then gives
   * a wrong answer: the account locks and refuses the next request.
   */
  lemma LoginThenLockout(name: string, songs: seq<Track>, pick: nat, guess: string, wrong: string)
    requires pick < |songs|
    requires guess != "" && GuessMatches(guess, songs[pick].name)
    requires wrong != "" && !GuessMatches(wrong, songs[pick].name)
    ensures var enrolled := Store(map[name := UserRecord(songs, false)], map[]);
      var challenged := Store(enrolled.users, map[name := songs[pick]]);
      var locked := Store(map[name := UserRecord(songs, true)], challenged.challenges);
      && Handle(Store(map[], map[]), Request(name, None, Some(songs)), 0) == Outcome(enrolled, Created)
      && Handle(enrolled, Request(name, None, None), pick) == Outcome(challenged, ChallengeStarted(songs[pick].previewUrl))
      && Handle(challenged, Request(name, Some(guess), None), 0) == Outcome(challenged, Verified(true))
      && Handle(challenged, Request(name, Some(wrong), None), 0) == Outcome(locked, Verified(false))
      && Handle(locked, Request(name, None, None), pick) == Outcome(locked, AccountLocked)
  {
    var enrolled := Store(map[name := UserRecord(songs, false)], map[]);
    var challenged := Store(enrolled.users, map[name := songs[pick]]);
    EnrolStoresNewRecord(Store(map[], map[]), Request(name, None, Some(songs)), 0);
    ChallengeStartPicksEnrolledSong(enrolled, Request(name, None, None), pick);
    MatchingGuessWritesNothing(challenged, Request(name, Some(guess), None), 0);
    FailedGuessLocks(challenged, Request(name, Some(wrong), None), 0);
  }
}
