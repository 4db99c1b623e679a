/** The poll list: what each poll card shows, derived from the fetched
    snapshot (poll -> options -> votes), the signed-in user, the admin flag,
    the current time and the in-flight vote marker; and how one click on a
    vote button is classified once the insert has answered. */
module PollList {
  import opened Types

  /** `vote.user_id === user?.id`. With no user the right-hand side is
      `undefined`, which no stored voter id equals. */
  predicate VotedBy(v: Vote, user: Option<User>) {
    user.Some? && v.userId == user.value.id
  }

  /** `votes.some(vote => vote.user_id === user?.id)` */
  function AnyVoteBy(votes: seq<Vote>, user: Option<User>): (b: bool)
    ensures b <==> exists j :: 0 <= j < |votes| && VotedBy(votes[j], user)
  {
    if |votes| == 0 then false
    else VotedBy(votes[0], user) || AnyVoteBy(votes[1..], user)
  }

  /** `options.some(option => option.votes.some(...))`: some vote under some
      option belongs to the user. */
  function AnyOptionVotedBy(options: seq<PollOption>, user: Option<User>): (b: bool)
    ensures b <==> exists i, j :: 0 <= i < |options| && 0 <= j < |options[i].votes| && VotedBy(options[i].votes[j], user)
  {
    if |options| == 0 then false
    else AnyVoteBy(options[0].votes, user) || AnyOptionVotedBy(options[1..], user)
  }

  /** `hasVoted` of a poll card. */
  predicate HasVoted(p: Poll, user: Option<User>) {
    AnyOptionVotedBy(p.options, user)
  }

  /** `isPollActive`: the end time is still ahead and the active flag is set. */
  predicate IsPollActive(p: Poll, now: Timestamp): (b: bool)
    ensures b ==> p.isActive
    ensures now >= p.endsAt ==> !b
  {
    p.endsAt > now && p.isActive
  }

  /** One bar of the results chart: the option text and its vote count. */
  datatype ChartBar = ChartBar(name: string, votes: nat)

  /** The chart data: one bar per option, in option order, whose height is
      the length of that option's vote list. */
  function Chart(options: seq<PollOption>): (bars: seq<ChartBar>)
    ensures |bars| == |options|
    ensures forall i :: 0 <= i < |options| ==> bars[i].name == options[i].text && bars[i].votes == |options[i].votes|
  {
    if |options| == 0 then []
    else [ChartBar(options[0].text, |options[0].votes|)] + Chart(options[1..])
  }

  /** One vote button: its label, the count printed beside it (absent when
      results are hidden), whether it is highlighted as the user's choice and
      whether it can be clicked. */
  datatype OptionView = OptionView(text: string, count: Option<nat>, votedForThis: bool, enabled: bool)

  /** One poll card. `chart` is absent when results are hidden. */
  datatype PollView = PollView(
    pollId: Id,
    hasVoted: bool,
    isActive: bool,
    chart: Option<seq<ChartBar>>,
    options: seq<OptionView>)

  /** The buttons of a card, one per option, in option order. */
  function OptionViews(options: seq<PollOption>, user: Option<User>, visible: bool, enabled: bool): (vs: seq<OptionView>)
    ensures |vs| == |options|
    ensures forall i :: 0 <= i < |options| ==>
      && vs[i].text == options[i].text
      && vs[i].enabled == enabled
      && (vs[i].count.Some? <==> visible)
      && (visible ==> vs[i].count.value == |options[i].votes|)
      && (vs[i].votedForThis <==> exists j :: 0 <= j < |options[i].votes| && VotedBy(options[i].votes[j], user))
  {
    if |options| == 0 then []
    else
      var o := options[0];
      [OptionView(o.text, if visible then Some(|o.votes|) else None, AnyVoteBy(o.votes, user), enabled)]
      + OptionViews(options[1..], user, visible, enabled)
  }

  /** The card rendered for poll `p`. Results (chart and per-option counts)
      are shown exactly to admins and to users who voted; a button is enabled
      exactly when the user has not voted, the poll is open and no vote on
      this poll is in flight; being admin grants no vote. */
  function DerivePoll(p: Poll, user: Option<User>, isAdmin: bool, now: Timestamp, votingInProgress: Option<Id>): (v: PollView)
    ensures v.pollId == p.id
    ensures v.hasVoted <==> exists i, j :: 0 <= i < |p.options| && 0 <= j < |p.options[i].votes| && VotedBy(p.options[i].votes[j], user)
    ensures v.isActive <==> p.isActive && now < p.endsAt
    ensures v.chart.Some? <==> isAdmin || v.hasVoted
    ensures v.chart.Some? ==> |v.chart.value| == |p.options|
    ensures |v.options| == |p.options|
    ensures v.chart.Some? ==> v.chart.value == Chart(p.options)
    ensures forall i :: 0 <= i < |v.options| ==>
      && v.options[i].text == p.options[i].text
      && (v.options[i].count.Some? <==> v.chart.Some?)
      && (v.options[i].count.Some? ==> v.options[i].count.value == |p.options[i].votes|)
      && (v.options[i].votedForThis <==> exists j :: 0 <= j < |p.options[i].votes| && VotedBy(p.options[i].votes[j], user))
      && (v.options[i].enabled <==> !v.hasVoted && v.isActive && votingInProgress != Some(p.id))
      && (v.options[i].votedForThis ==> v.hasVoted)
  {
    var hasVoted := HasVoted(p, user);
    var isActive := IsPollActive(p, now);
    var visible := isAdmin || hasVoted;
    var disabled := hasVoted || !isActive || votingInProgress == Some(p.id);
    PollView(p.id, hasVoted, isActive, if visible then Some(Chart(p.options)) else None,
             OptionViews(p.options, user, visible, !disabled))
  }

  // ---------------------------------------------------------------------
  // The nested snapshot against the flat vote table
  // ---------------------------------------------------------------------

  /** Every vote of the poll, option by option. */
  function AllVotes(options: seq<PollOption>): seq<Vote> {
    if |options| == 0 then [] else options[0].votes + AllVotes(options[1..])
  }

  /** How many votes in `votes` name option `optionId`. */
  function CountFor(votes: seq<Vote>, optionId: Id): nat {
    if |votes| == 0 then 0
    else (if votes[0].optionId == optionId then 1 else 0) + CountFor(votes[1..], optionId)
  }

  /** A snapshot as the nested select returns it: every vote listed under an
      option refers to that option, and option ids are distinct. */
  ghost predicate WellFormedOptions(options: seq<PollOption>) {
    && (forall i, j :: 0 <= i < |options| && 0 <= j < |options[i].votes| ==> options[i].votes[j].optionId == options[i].id)
    && (forall i, k :: 0 <= i < k < |options| ==> options[i].id != options[k].id)
  }

  function Sum(xs: seq<nat>): nat {
    if |xs| == 0 then 0 else xs[0] + Sum(xs[1..])
  }

  function Tallies(bars: seq<ChartBar>): seq<nat> {
    if |bars| == 0 then [] else [bars[0].votes] + Tallies(bars[1..])
  }

  lemma {:induction false} CountForConcat(a: seq<Vote>, b: seq<Vote>, optionId: Id)
    ensures CountFor(a + b, optionId) == CountFor(a, optionId) + CountFor(b, optionId)
  {
    if |a| == 0 {
      assert a + b == b;
    } else {
      assert (a + b)[1..] == a[1..] + b;
      CountForConcat(a[1..], b, optionId);
    }
  }

  /** Votes that all name one option count fully for it and not at all for
      any other. */
  lemma {:induction false} CountForUniform(votes: seq<Vote>, own: Id, optionId: Id)
    requires forall j :: 0 <= j < |votes| ==> votes[j].optionId == own
    ensures CountFor(votes, optionId) == if own == optionId then |votes| else 0
  {
    if |votes| > 0 {
      CountForUniform(votes[1..], own, optionId);
    }
  }

  lemma {:induction false} CountForAbsent(options: seq<PollOption>, optionId: Id)
    requires WellFormedOptions(options)
    requires forall k :: 0 <= k < |options| ==> options[k].id != optionId
    ensures CountFor(AllVotes(options), optionId) == 0
  {
    if |options| > 0 {
      CountForConcat(options[0].votes, AllVotes(options[1..]), optionId);
      CountForUniform(options[0].votes, options[0].id, optionId);
      CountForAbsent(options[1..], optionId);
    }
  }

  /** The tally shown for an option (the length of its nested vote list) is
      the number of rows of the poll's flat vote table that name that option. */
  lemma {:induction false} TallyCountsVoteTable(options: seq<PollOption>, i: nat)
    requires WellFormedOptions(options)
    requires i < |options|
    ensures Chart(options)[i].votes == CountFor(AllVotes(options), options[i].id)
  {
    var id := options[i].id;
    CountForConcat(options[0].votes, AllVotes(options[1..]), id);
    CountForUniform(options[0].votes, options[0].id, id);
    if i == 0 {
      CountForAbsent(options[1..], id);
    } else {
      TallyCountsVoteTable(options[1..], i - 1);
    }
  }

  /** The bars add up to every vote of the poll. */
  lemma {:induction false} TalliesSumToVoteCount(options: seq<PollOption>)
    ensures Sum(Tallies(Chart(options))) == |AllVotes(options)|
  {
    if |options| > 0 {
      var bars := Chart(options);
      assert bars[1..] == Chart(options[1..]);
      TalliesSumToVoteCount(options[1..]);
    }
  }

  /** `hasVoted` holds exactly when the flat vote table holds a row of the
      user. */
  lemma {:induction false} HasVotedIffVoteTableHasUser(options: seq<PollOption>, user: Option<User>)
    ensures AnyOptionVotedBy(options, user) <==> exists j :: 0 <= j < |AllVotes(options)| && VotedBy(AllVotes(options)[j], user)
  {
    if |options| > 0 {
      var head := options[0].votes;
      var rest := AllVotes(options[1..]);
      HasVotedIffVoteTableHasUser(options[1..], user);
      assert AllVotes(options) == head + rest;
      if AnyVoteBy(head, user) {
        var j :| 0 <= j < |head| && VotedBy(head[j], user);
        assert AllVotes(options)[j] == head[j];
      } else if AnyOptionVotedBy(options[1..], user) {
        var j :| 0 <= j < |rest| && VotedBy(rest[j], user);
        assert AllVotes(options)[|head| + j] == rest[j];
      } else {
        forall j | 0 <= j < |AllVotes(options)|
          ensures !VotedBy(AllVotes(options)[j], user)
        {
          if j < |head| {
            assert AllVotes(options)[j] == head[j];
            assert !VotedBy(head[j], user);
          } else {
            assert AllVotes(options)[j] == rest[j - |head|];
            assert !VotedBy(rest[j - |head|], user);
          }
        }
      }
    }
  }

  // ---------------------------------------------------------------------
  // Properties of the derived card
  // ---------------------------------------------------------------------

  /** With no user signed in nobody has voted, so no card counts as voted. */
  lemma NoUserHasNotVoted(p: Poll, isAdmin: bool, now: Timestamp, votingInProgress: Option<Id>)
    ensures !DerivePoll(p, None, isAdmin, now, votingInProgress).hasVoted
  {
  }

  /** A poll is open while `now` is before `endsAt` and closed from `endsAt`
      on, whatever its active flag; an inactive poll is never open. */
  lemma PollClosesAtEndsAt(p: Poll, now: Timestamp)
    ensures now >= p.endsAt ==> !IsPollActive(p, now)
    ensures !p.isActive ==> !IsPollActive(p, now)
    ensures p.isActive && now < p.endsAt ==> IsPollActive(p, now)
  {
  }

  /** Results once shown stay shown when the viewer becomes admin or votes. */
  lemma ResultsVisibilityMonotone(p: Poll, user: Option<User>, user': Option<User>, isAdmin: bool, isAdmin': bool, now: Timestamp, m: Option<Id>)
    requires isAdmin ==> isAdmin'
    requires HasVoted(p, user) ==> HasVoted(p, user')
    ensures DerivePoll(p, user, isAdmin, now, m).chart.Some? ==> DerivePoll(p, user', isAdmin', now, m).chart.Some?
  {
  }

  /** A user who already voted on a poll can click none of its buttons, open
      or not, admin or not, whatever is in flight. */
  lemma VotedUserCannotVoteAgain(p: Poll, user: Option<User>, isAdmin: bool, now: Timestamp, m: Option<Id>, i: nat)
    requires HasVoted(p, user)
    requires i < |p.options|
    ensures !DerivePoll(p, user, isAdmin, now, m).options[i].enabled
    ensures DerivePoll(p, user, isAdmin, now, m).chart.Some?
  {
  }

  /** The admin flag changes what is shown, never which buttons are enabled. */
  lemma AdminGrantsNoVote(p: Poll, user: Option<User>, now: Timestamp, m: Option<Id>, i: nat)
    requires i < |p.options|
    ensures DerivePoll(p, user, true, now, m).options[i].enabled == DerivePoll(p, user, false, now, m).options[i].enabled
  {
  }

  /** The tallies are recomputed from the snapshot alone: whoever looks, when
      and with what in flight, the visible counts are the same. */
  lemma TalliesDependOnSnapshotOnly(p: Poll, u1: Option<User>, u2: Option<User>, now1: Timestamp, now2: Timestamp, m1: Option<Id>, m2: Option<Id>, i: nat)
    requires i < |p.options|
    ensures DerivePoll(p, u1, true, now1, m1).options[i].count == DerivePoll(p, u2, true, now2, m2).options[i].count
    ensures DerivePoll(p, u1, true, now1, m1).chart == DerivePoll(p, u2, true, now2, m2).chart
  {
  }

  /** The snapshot after the backend stored vote `v` under option `i`. */
  function AddVote(p: Poll, i: nat, v: Vote): (q: Poll)
    requires i < |p.options|
    ensures q.id == p.id && q.isActive == p.isActive && q.endsAt == p.endsAt
    ensures |q.options| == |p.options|
    ensures forall k :: 0 <= k < |p.options| && k != i ==> q.options[k] == p.options[k]
    ensures q.options[i].text == p.options[i].text
    ensures q.options[i].votes == p.options[i].votes + [v]
  {
    p.(options := p.options[i := p.options[i].(votes := p.options[i].votes + [v])])
  }

  /** Once a vote of the user appears under option `i`, the re-derived card
      shows results, highlights that option, disables every button, adds one
      to that option's count and leaves the other counts alone. */
  lemma RecordedVoteEffects(p: Poll, i: nat, v: Vote, u: User, isAdmin: bool, now: Timestamp, m: Option<Id>)
    requires i < |p.options|
    requires v.userId == u.id
    ensures var after := DerivePoll(AddVote(p, i, v), Some(u), isAdmin, now, m);
            && after.hasVoted
            && after.chart.Some?
            && after.options[i].votedForThis
            && (forall k :: 0 <= k < |after.options| ==> !after.options[k].enabled)
            && after.options[i].count == Some(|p.options[i].votes| + 1)
            && (forall k :: 0 <= k < |p.options| && k != i ==> after.options[k].count == Some(|p.options[k].votes|))
  {
    var q := AddVote(p, i, v);
    assert q.options[i].votes[|p.options[i].votes|] == v;
    assert VotedBy(q.options[i].votes[|p.options[i].votes|], Some(u));
    assert HasVoted(q, Some(u));
  }

  // ---------------------------------------------------------------------
  // handleVote
  // ---------------------------------------------------------------------

  /** Storage error code of a unique-constraint violation. */
  const UniqueViolation: string := "23505"

  /** What the vote insert answered. A thrown error reaches the same catch
      as a returned error without code 23505, so it reads as
      `InsertFailed(None)`. */
  datatype InsertResult = Inserted | InsertFailed(code: Option<string>)

  /** The toast a vote attempt ends with (or none, for `Ignored`). */
  datatype VoteOutcome = SignInRequired | Ignored | Recorded | AlreadyVoted | Failed

  /** The row a vote attempt inserts. */
  datatype VoteRow = VoteRow(pollId: Id, optionId: Id, userId: Id)

  /** One call of `handleVote`: its outcome, the insert it issued (if any),
      the in-flight marker while the insert is outstanding and after the call,
      and whether the list is re-fetched. */
  datatype VoteAttempt = VoteAttempt(
    outcome: VoteOutcome,
    insert: Option<VoteRow>,
    markerDuring: Option<Id>,
    markerAfter: Option<Id>,
    refetch: bool)

  /** `if (votingInProgress)`: a JavaScript truthiness test, so an empty id
      would read as "nothing in flight". */
  predicate InFlight(votingInProgress: Option<Id>): (b: bool)
    ensures b ==> votingInProgress.Some?
    ensures votingInProgress == Some("") ==> !b
  {
    votingInProgress.Some? && votingInProgress.value != ""
  }

  /** `handleVote(pollId, optionId)` given what the insert answers. No insert
      is issued without a user or while any vote (on any poll) is in flight;
      otherwise the marker is set to the poll for the duration and cleared on
      every exit, a unique violation is the distinct "already voted" outcome,
      any other error is a plain failure, and only success re-fetches. */
  function HandleVote(user: Option<User>, votingInProgress: Option<Id>, pollId: Id, optionId: Id, result: InsertResult): (a: VoteAttempt)
    ensures a.insert.Some? <==> user.Some? && !InFlight(votingInProgress)
    ensures a.insert.Some? ==> a.insert.value == VoteRow(pollId, optionId, user.value.id)
    ensures a.insert.Some? ==> a.markerDuring == Some(pollId) && a.markerAfter == None
    ensures a.insert.None? ==> a.markerDuring == votingInProgress && a.markerAfter == votingInProgress
    ensures a.outcome == SignInRequired <==> user.None?
    ensures a.outcome == Ignored <==> user.Some? && InFlight(votingInProgress)
    ensures a.outcome == Recorded <==> a.insert.Some? && result.Inserted?
    ensures a.outcome == AlreadyVoted <==> a.insert.Some? && result == InsertFailed(Some(UniqueViolation))
    ensures a.outcome == Failed <==> a.insert.Some? && result.InsertFailed? && result.code != Some(UniqueViolation)
    ensures a.refetch <==> a.outcome == Recorded
  {
    if user.None? then
      VoteAttempt(SignInRequired, None, votingInProgress, votingInProgress, false)
    else if InFlight(votingInProgress) then
      VoteAttempt(Ignored, None, votingInProgress, votingInProgress, false)
    else
      var row := VoteRow(pollId, optionId, user.value.id);
      match result
      case Inserted => VoteAttempt(Recorded, Some(row), Some(pollId), None, true)
      case InsertFailed(code) =>
        if code == Some(UniqueViolation) then VoteAttempt(AlreadyVoted, Some(row), Some(pollId), None, false)
        else VoteAttempt(Failed, Some(row), Some(pollId), None, false)
  }

  /** The in-flight guard is one marker for the whole list, while buttons are
      disabled per poll: with a vote on another poll outstanding, every button
      of an open poll the user has not voted on is enabled, yet clicking it
      issues no insert, whatever the insert would have answered. */
  lemma GuardIsGlobalNotPerPoll(p: Poll, u: User, isAdmin: bool, now: Timestamp, other: Id, i: nat, optionId: Id, result: InsertResult)
    requires other != "" && other != p.id
    requires !HasVoted(p, Some(u)) && IsPollActive(p, now)
    requires i < |p.options|
    ensures DerivePoll(p, Some(u), isAdmin, now, Some(other)).options[i].enabled
    ensures HandleVote(Some(u), Some(other), p.id, optionId, result).outcome == Ignored
    ensures HandleVote(Some(u), Some(other), p.id, optionId, result).insert.None?
  {
  }

  /** An instance of the above: with a vote on poll "a" outstanding, the first
      button of the open, unvoted poll "b" is enabled and its click ignored. */
  lemma GuardIsGlobalExample()
    ensures var u := User("u1", None);
            var p := Poll("b", 0, "Lunch?", "Pick your favorite lunch spot", "admin", 100, true,
                          [PollOption("o1", "b", "Pizza", 0, []), PollOption("o2", "b", "Salad", 0, [])]);
            && DerivePoll(p, Some(u), false, 10, Some("a")).options[0].enabled
            && HandleVote(Some(u), Some("a"), "b", "o1", Inserted).insert.None?
  {
    var u := User("u1", None);
    var p := Poll("b", 0, "Lunch?", "Pick your favorite lunch spot", "admin", 100, true,
                  [PollOption("o1", "b", "Pizza", 0, []), PollOption("o2", "b", "Salad", 0, [])]);
    assert !HasVoted(p, Some(u));
    GuardIsGlobalNotPerPoll(p, u, false, 10, "a", 0, "o1", Inserted);
  }

  /** A user votes "Pizza", the list is re-fetched with that vote, and a second
      attempt on "Salad" (which the card no longer offers) meets the unique
      violation: "already voted", no re-fetch, counts 1 and 0. */
  lemma SecondVoteIsAlreadyVoted()
    ensures var u := User("u1", None);
            var p := Poll("p", 0, "Lunch?", "Pick your favorite lunch spot", "admin", 100, true,
                          [PollOption("pizza", "p", "Pizza", 0, []), PollOption("salad", "p", "Salad", 0, [])]);
            var first := HandleVote(Some(u), None, "p", "pizza", Inserted);
            var q := AddVote(p, 0, Vote("v1", 5, "p", "pizza", "u1"));
            var card := DerivePoll(q, Some(u), false, 10, first.markerAfter);
            var second := HandleVote(Some(u), first.markerAfter, "p", "salad", InsertFailed(Some("23505")));
            && first.outcome == Recorded && first.refetch
            && !card.options[1].enabled
            && second.outcome == AlreadyVoted && !second.refetch
            && card.options[0].count == Some(1) && card.options[1].count == Some(0)
  {
    var u := User("u1", None);
    var p := Poll("p", 0, "Lunch?", "Pick your favorite lunch spot", "admin", 100, true,
                  [PollOption("pizza", "p", "Pizza", 0, []), PollOption("salad", "p", "Salad", 0, [])]);
    RecordedVoteEffects(p, 0, Vote("v1", 5, "p", "pizza", "u1"), u, false, 10, None);
  }

  // ---------------------------------------------------------------------
  // The list as a whole
  // ---------------------------------------------------------------------

  /** What the list component renders. */
  datatype ListScreen = Spinner | LoadError | NoPolls | Cards(cards: seq<PollView>)

  function DeriveAll(polls: seq<Poll>, user: Option<User>, isAdmin: bool, now: Timestamp, m: Option<Id>): (cards: seq<PollView>)
    ensures |cards| == |polls|
    ensures forall k :: 0 <= k < |polls| ==> cards[k] == DerivePoll(polls[k], user, isAdmin, now, m)
  {
    if |polls| == 0 then [] else [DerivePoll(polls[0], user, isAdmin, now, m)] + DeriveAll(polls[1..], user, isAdmin, now, m)
  }

  /** The spinner while loading with a user, else the error panel after a
      failed fetch, else the empty notice, else one card per poll in fetched
      order. */
  function Screen(loading: bool, fetchFailed: bool, polls: seq<Poll>, user: Option<User>, isAdmin: bool, now: Timestamp, m: Option<Id>): (s: ListScreen)
    ensures s.Spinner? <==> loading && user.Some?
    ensures s.LoadError? <==> !(loading && user.Some?) && fetchFailed
    ensures s.NoPolls? <==> !(loading && user.Some?) && !fetchFailed && |polls| == 0
    ensures s.Cards? ==> |s.cards| == |polls| > 0 && forall k :: 0 <= k < |polls| ==> s.cards[k].pollId == polls[k].id
    ensures s.Cards? ==> s.cards == DeriveAll(polls, user, isAdmin, now, m)
  {
    if loading && user.Some? then Spinner
    else if fetchFailed then LoadError
    else if |polls| == 0 then NoPolls
    else Cards(DeriveAll(polls, user, isAdmin, now, m))
  }
}
