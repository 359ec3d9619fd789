/**
 * What the two handlers promise across events: the invariant they keep, the
 * creation flow, joining and leaving, deletion and its permission check,
 * the by-name commands, and the two-step "delete everything".
 */
module Properties {

  import opened Wrappers
  import opened Text
  import opened Records
  import opened Commands
  import opened Replies
  import opened Dispatch

  // ---------------------------------------------------------------- invariant

  /** Adding a person by name keeps the invariant. */
  lemma OnAddKeepsValid(w: World, user: UserId, a: string, p: string)
    requires Valid(w)
    ensures Valid(OnAdd(w, user, a, p).0)
  {
    match FirstNamed(w.activities, a) {
      case Some(act) =>
        FoundIn(w.activities, act);
        var row := Participant(w.nextParticipantId, user, p, act.id);
        if FirstIndex(w.participants, ListedAs(act.id, p)).None? && ParticipantFits(row) {
          AddParticipantValid(w, row);
        }
      case None =>
    }
  }

  /** Removing a person by name keeps the invariant. */
  lemma OnRemoveKeepsValid(w: World, a: string, p: string)
    requires Valid(w)
    ensures Valid(OnRemove(w, a, p).0)
  {
    match FirstNamed(w.activities, a) {
      case Some(act) =>
        match FirstIndex(w.participants, ListedAs(act.id, p)) {
          case Some(i) => RemoveParticipantValid(w, i);
          case None =>
        }
      case None =>
    }
  }

  /** A text message keeps the invariant: ids ordered and fresh, no orphan rows, rows fit, pending creations named. */
  lemma OnTextKeepsValid(w: World, user: UserId, text: string)
    requires Valid(w)
    ensures Valid(OnText(w, user, text).0)
  {
    var c := ClassifyText(text);
    if c.AddParticipant? {
      OnAddKeepsValid(w, user, c.activityName, c.personName);
    } else if c.RemoveParticipant? {
      OnRemoveKeepsValid(w, c.activityName, c.personName);
    } else if c.StartCreation? && c.name != [] {
      StartCreationValid(w, user, c.name);
    } else {
      assert OnText(w, user, text).0 == w;
    }
  }

  /** Completing a creation keeps the invariant. */
  lemma OnSelectDateKeepsValid(w: World, user: UserId, picked: Option<string>)
    requires Valid(w)
    ensures Valid(OnSelectDate(w, user, picked).0)
  {
    if picked.Some? && user in w.states && w.states[user].step == DatetimeStep && w.states[user].name != [] {
      var act := Activity(w.nextActivityId, w.states[user].name, picked.value, user);
      if ActivityFits(act) {
        AddActivityValid(w, act, user);
      }
    }
  }

  /** Joining keeps the invariant. */
  lemma OnJoinKeepsValid(w: World, user: UserId, id: Option<int>, profile: Option<string>)
    requires Valid(w)
    ensures Valid(OnJoin(w, user, id, profile).0)
  {
    match Lookup(w, id) {
      case Some(act) =>
        FoundIn(w.activities, act);
        var row := Participant(w.nextParticipantId, user, DisplayName(profile, user), act.id);
        if FirstIndex(w.participants, JoinedBy(act.id, user)).None? && ParticipantFits(row) {
          AddParticipantValid(w, row);
        }
      case None =>
    }
  }

  /** Leaving keeps the invariant. */
  lemma OnCancelJoinKeepsValid(w: World, user: UserId, id: Option<int>, profile: Option<string>)
    requires Valid(w)
    ensures Valid(OnCancelJoin(w, user, id, profile).0)
  {
    match Lookup(w, id) {
      case Some(act) =>
        match FirstIndex(w.participants, JoinedBy(act.id, user)) {
          case Some(i) => RemoveParticipantValid(w, i);
          case None =>
        }
      case None =>
    }
  }

  /** Deleting an activity keeps the invariant; in particular it leaves no participant row behind. */
  lemma OnDeleteKeepsValid(w: World, user: UserId, id: Option<int>, profile: Option<string>)
    requires Valid(w)
    ensures Valid(OnDelete(w, user, id, profile).0)
  {
    match Lookup(w, id) {
      case Some(act) =>
        if act.creatorId == user {
          DeleteActivityValid(w, act.id);
        }
      case None =>
    }
  }

  /** A postback keeps the invariant. */
  lemma OnPostbackKeepsValid(w: World, user: UserId, data: string, picked: Option<string>, profile: Option<string>)
    requires Valid(w)
    ensures Valid(OnPostback(w, user, data, picked, profile).0)
  {
    match ClassifyPostback(data) {
      case SelectDate => OnSelectDateKeepsValid(w, user, picked);
      case JoinActivity(id) => OnJoinKeepsValid(w, user, id, profile);
      case CancelJoin(id) => OnCancelJoinKeepsValid(w, user, id, profile);
      case DeleteActivity(id) => OnDeleteKeepsValid(w, user, id, profile);
      case _ =>
    }
  }

  /** Every state reachable from fresh tables by any sequence of events satisfies the invariant. */
  datatype Event =
    | Text(user: UserId, text: string)
    | Postback(user: UserId, data: string, picked: Option<string>, profile: Option<string>)

  function Run(w: World, events: seq<Event>): World
    decreases |events|
  {
    if events == [] then w
    else
      var e := events[0];
      var w' := match e
        case Text(u, t) => OnText(w, u, t).0
        case Postback(u, d, p, pr) => OnPostback(w, u, d, p, pr).0;
      Run(w', events[1..])
  }

  lemma {:induction false} RunKeepsValid(w: World, events: seq<Event>)
    requires Valid(w)
    ensures Valid(Run(w, events))
    decreases |events|
  {
    if events != [] {
      match events[0] {
        case Text(u, t) => OnTextKeepsValid(w, u, t);
        case Postback(u, d, p, pr) => OnPostbackKeepsValid(w, u, d, p, pr);
      }
      var w' := match events[0]
        case Text(u, t) => OnText(w, u, t).0
        case Postback(u, d, p, pr) => OnPostback(w, u, d, p, pr).0;
      RunKeepsValid(w', events[1..]);
    }
  }

  lemma ReachableValid(events: seq<Event>)
    ensures Valid(Run(Empty, events))
  {
    EmptyValid();
    RunKeepsValid(Empty, events);
  }

  // ------------------------------------------------------------ creation flow

  /** `副本 <name>` records a pending creation for the sender (replacing any earlier one) when the stripped name is not empty, and only hints otherwise. */
  lemma StartCreationSetsEntry(w: World, user: UserId, rest: string)
    ensures var r := OnText(w, user, CreatePrefix + rest);
      && (Strip(rest) != [] ==>
            r == (w.(states := w.states[user := Entry(DatetimeStep, Strip(rest))]), DatetimePicker))
      && (Strip(rest) == [] ==> r == (w, NameHint))
  {
    CreateCommandRecognised(rest);
  }

  /**
   * `select_date` adds an activity exactly when a date/time was sent, the
   * sender has a pending creation with a name, and the row fits; the new
   * activity is last, carries the next id, the pending name, the date/time
   * and the sender as creator, and the pending creation is forgotten.
   * Otherwise nothing changes.
   */
  lemma SelectDateCreates(w: World, user: UserId, picked: Option<string>)
    ensures var r := OnSelectDate(w, user, picked);
      var pending := picked.Some? && user in w.states && w.states[user].step == DatetimeStep && w.states[user].name != []
        && ActivityFits(Activity(w.nextActivityId, w.states[user].name, picked.value, user));
      && (|r.0.activities| == |w.activities| + 1 <==> pending)
      && (pending ==>
            && r.0.activities[..|w.activities|] == w.activities
            && r.0.activities[|w.activities|] == Activity(w.nextActivityId, w.states[user].name, picked.value, user)
            && user !in r.0.states && r.0.participants == w.participants)
      && (pending ==> r.1 == ListReply(r.0))
      && (!pending ==> r.0 == w)
      && (picked.None? ==> r == (w, Silent))
      && ((picked.Some? && user in w.states && w.states[user].step == DatetimeStep && w.states[user].name != []
           && !ActivityFits(Activity(w.nextActivityId, w.states[user].name, picked.value, user)))
          ==> r == (w, Silent))
  {
  }

  /** A date/time chosen without a pending creation of the sender's own asks them to start again. */
  lemma SelectDateWithoutPending(w: World, user: UserId, when: string)
    requires user !in w.states
    ensures OnSelectDate(w, user, Some(when)) == (w, RestartCreation)
  {
  }

  /** The picker's answer to a pending creation named `name` appends that activity and forgets the pending creation. */
  lemma PickAfterStart(w: World, user: UserId, name: string, when: string)
    requires name != []
    requires ActivityFits(Activity(w.nextActivityId, name, when, user))
    ensures OnSelectDate(w.(states := w.states[user := Entry(DatetimeStep, name)]), user, Some(when)).0
      == w.(activities := w.activities + [Activity(w.nextActivityId, name, when, user)],
            nextActivityId := w.nextActivityId + 1,
            states := w.states - {user})
  {
    assert w.states[user := Entry(DatetimeStep, name)] - {user} == w.states - {user};
  }

  /** The two-step flow: `副本 <name>` followed by the picker's answer creates exactly that activity, owned by the sender. */
  lemma CreationFlow(w: World, user: UserId, name: string, when: string, data: string, profile: Option<string>)
    requires Strip(name) == name && name != []
    requires ClassifyPostback(data).SelectDate?
    requires ActivityFits(Activity(w.nextActivityId, name, when, user))
    ensures var w1 := OnText(w, user, CreatePrefix + name).0;
      var w2 := OnPostback(w1, user, data, Some(when), profile).0;
      && w2.activities == w.activities + [Activity(w.nextActivityId, name, when, user)]
      && w2.participants == w.participants
      && w2.states == w.states - {user}
      && w2.nextActivityId == w.nextActivityId + 1
  {
    StartCreationSetsEntry(w, user, name);
    var w1 := w.(states := w.states[user := Entry(DatetimeStep, name)]);
    assert OnPostback(w1, user, data, Some(when), profile) == OnSelectDate(w1, user, Some(when));
    PickAfterStart(w, user, name, when);
  }

  // ------------------------------------------------------------- join / leave

  /** An id that does not parse, or that no activity has, is answered with silence and changes nothing. */
  lemma UnknownIdIsSilent(w: World, user: UserId, data: string, picked: Option<string>, profile: Option<string>)
    requires var c := ClassifyPostback(data);
      (c.JoinActivity? || c.CancelJoin? || c.DeleteActivity? || c.ViewParticipants?) && Lookup(w, c.id).None?
    ensures OnPostback(w, user, data, picked, profile) == (w, Silent)
  {
  }

  /** Joining when not yet joined adds one row for the sender under their display name, and the reported headcount includes it. */
  lemma JoinAddsOneRow(w: World, user: UserId, id: Option<int>, profile: Option<string>, act: Activity)
    requires Lookup(w, id) == Some(act)
    requires JoinCount(w.participants, act.id, user) == 0
    requires ParticipantFits(Participant(w.nextParticipantId, user, DisplayName(profile, user), act.id))
    ensures var r := OnJoin(w, user, id, profile);
      && r.0.participants == w.participants + [Participant(w.nextParticipantId, user, DisplayName(profile, user), act.id)]
      && JoinCount(r.0.participants, act.id, user) == 1
      && r.1 == Joined(act.name, DisplayName(profile, user), act.datetime, |ParticipantsOf(w.participants, act.id)| + 1)
  {
    var name := DisplayName(profile, user);
    var row := Participant(w.nextParticipantId, user, name, act.id);
    var ps := w.participants + [row];
    assert FirstIndex(w.participants, JoinedBy(act.id, user)).None? by {
      FilterEmpty(w.participants, JoinedBy(act.id, user));
    }
    assert OnJoin(w, user, id, profile)
      == (w.(participants := ps, nextParticipantId := w.nextParticipantId + 1),
          Joined(act.name, name, act.datetime, |ParticipantsOf(ps, act.id)|));
    assert JoinCount(ps, act.id, user) == 1 by {
      FilterAppend(w.participants, row, JoinedBy(act.id, user));
    }
    assert |ParticipantsOf(ps, act.id)| == |ParticipantsOf(w.participants, act.id)| + 1 by {
      FilterAppend(w.participants, row, InActivity(act.id));
    }
  }

  /** Joining when already joined only says so. */
  lemma JoinWhenJoined(w: World, user: UserId, id: Option<int>, profile: Option<string>, act: Activity)
    requires Lookup(w, id) == Some(act)
    requires JoinCount(w.participants, act.id, user) > 0
    ensures OnJoin(w, user, id, profile) == (w, AlreadyJoined(act.name, DisplayName(profile, user)))
  {
    FilterEmpty(w.participants, JoinedBy(act.id, user));
  }

  /** Pressing a join button twice has the effect of pressing it once, and the second press reports "already joined". */
  lemma JoinIdempotent(w: World, user: UserId, id: Option<int>, profile: Option<string>)
    ensures var r1 := OnJoin(w, user, id, profile);
      var r2 := OnJoin(r1.0, user, id, profile);
      r2.0 == r1.0 && (r1.1.Joined? ==> r2.1.AlreadyJoined?)
  {
    match Lookup(w, id) {
      case None =>
      case Some(act) =>
        var r1 := OnJoin(w, user, id, profile);
        assert Lookup(r1.0, id) == Some(act);
        if JoinCount(w.participants, act.id, user) > 0 {
          JoinWhenJoined(w, user, id, profile, act);
          JoinWhenJoined(r1.0, user, id, profile, act);
        } else if ParticipantFits(Participant(w.nextParticipantId, user, DisplayName(profile, user), act.id)) {
          JoinAddsOneRow(w, user, id, profile, act);
          JoinWhenJoined(r1.0, user, id, profile, act);
        } else {
          FilterEmpty(w.participants, JoinedBy(act.id, user));
        }
    }
  }

  /** A display name too long for its column makes the insert fail; the failure is swallowed, so the join is silent and changes nothing. */
  lemma JoinTooLong(w: World, user: UserId, id: Option<int>, profile: Option<string>, act: Activity)
    requires Lookup(w, id) == Some(act)
    requires JoinCount(w.participants, act.id, user) == 0
    requires !ParticipantFits(Participant(w.nextParticipantId, user, DisplayName(profile, user), act.id))
    ensures OnJoin(w, user, id, profile) == (w, Silent)
  {
    assert FirstIndex(w.participants, JoinedBy(act.id, user)).None? by {
      FilterEmpty(w.participants, JoinedBy(act.id, user));
    }
  }

  /** A join never gives any user a second row in any activity. */
  lemma JoinNeverDuplicates(w: World, user: UserId, id: Option<int>, profile: Option<string>, aid: int, u: UserId)
    requires JoinCount(w.participants, aid, u) <= 1
    ensures JoinCount(OnJoin(w, user, id, profile).0.participants, aid, u) <= 1
  {
    match Lookup(w, id) {
      case None =>
      case Some(act) =>
        var row := Participant(w.nextParticipantId, user, DisplayName(profile, user), act.id);
        FilterEmpty(w.participants, JoinedBy(act.id, user));
        FilterAppend(w.participants, row, JoinedBy(aid, u));
    }
  }

  /**
   * Leaving removes the first row that records the sender in that activity,
   * keeping every other row where it was, the sender's other rows included.
   */
  lemma CancelRemovesOneRow(w: World, user: UserId, id: Option<int>, profile: Option<string>, act: Activity)
    requires Lookup(w, id) == Some(act)
    requires JoinCount(w.participants, act.id, user) > 0
    ensures var r := OnCancelJoin(w, user, id, profile);
      && (exists i :: && 0 <= i < |w.participants| && JoinedBy(act.id, user)(w.participants[i])
                      && (forall j :: 0 <= j < i ==> !JoinedBy(act.id, user)(w.participants[j]))
                      && r.0.participants == RemoveAt(w.participants, i))
      && |r.0.participants| == |w.participants| - 1
      && JoinCount(r.0.participants, act.id, user) == JoinCount(w.participants, act.id, user) - 1
      && (forall q :: q in w.participants && !(q.activityId == act.id && q.userId == user) ==> q in r.0.participants)
      && r.1 == Left(act.name, DisplayName(profile, user))
  {
    FilterEmpty(w.participants, JoinedBy(act.id, user));
    var i := FirstIndex(w.participants, JoinedBy(act.id, user)).value;
    FilterRemoveAt(w.participants, i, JoinedBy(act.id, user));
    RemoveAtKeepsOthers(w.participants, i);
  }

  /** Leaving when not joined only says so. */
  lemma CancelWhenNotJoined(w: World, user: UserId, id: Option<int>, profile: Option<string>, act: Activity)
    requires Lookup(w, id) == Some(act)
    requires JoinCount(w.participants, act.id, user) == 0
    ensures OnCancelJoin(w, user, id, profile) == (w, NotJoined(act.name, DisplayName(profile, user)))
  {
    FilterEmpty(w.participants, JoinedBy(act.id, user));
  }

  /** Leaving right after a successful join removes exactly the row the join added. */
  lemma JoinThenCancelStep(w: World, user: UserId, id: Option<int>, profile: Option<string>)
    ensures var r1 := OnJoin(w, user, id, profile);
      r1.1.Joined? ==> OnCancelJoin(r1.0, user, id, profile).0 == w.(nextParticipantId := w.nextParticipantId + 1)
  {
    var r1 := OnJoin(w, user, id, profile);
    if r1.1.Joined? {
      var act := Lookup(w, id).value;
      var row := Participant(w.nextParticipantId, user, DisplayName(profile, user), act.id);
      var ps := w.participants + [row];
      assert r1.0 == w.(participants := ps, nextParticipantId := w.nextParticipantId + 1);
      assert Lookup(r1.0, id) == Some(act);
      FirstIndexAppend(w.participants, row, JoinedBy(act.id, user));
      assert OnCancelJoin(r1.0, user, id, profile).0 == r1.0.(participants := RemoveAt(ps, |w.participants|));
      assert RemoveAt(ps, |w.participants|) == w.participants;
    }
  }

  /** The join button followed by the cancel button of the same card restores the participant table. */
  lemma JoinThenCancel(w: World, user: UserId, id: nat, picked: Option<string>, profile: Option<string>)
    ensures var r1 := OnPostback(w, user, ButtonData(JoinTag, id), picked, profile);
      r1.1.Joined? ==>
        OnPostback(r1.0, user, ButtonData(CancelJoinTag, id), picked, profile).0
          == w.(nextParticipantId := w.nextParticipantId + 1)
  {
    var r1 := OnJoin(w, user, Some(id), profile);
    assert OnPostback(w, user, ButtonData(JoinTag, id), picked, profile) == r1 by {
      JoinButtonRoundTrip(id);
    }
    assert OnPostback(r1.0, user, ButtonData(CancelJoinTag, id), picked, profile)
      == OnCancelJoin(r1.0, user, Some(id), profile) by {
      CancelButtonRoundTrip(id);
    }
    JoinThenCancelStep(w, user, Some(id), profile);
  }

  // ------------------------------------------------------------ delete / view

  /** The creator's delete removes the activity and every participant row of it, and nothing else. */
  lemma CreatorDeletes(w: World, user: UserId, id: Option<int>, profile: Option<string>, act: Activity)
    requires Lookup(w, id) == Some(act) && act.creatorId == user
    ensures var r := OnDelete(w, user, id, profile);
      && r.1 == Deleted(act.name)
      && Lookup(r.0, Some(act.id)).None?
      && ParticipantsOf(r.0.participants, act.id) == []
      && (forall a :: a in r.0.activities <==> a in w.activities && a.id != act.id)
      && (forall p :: p in r.0.participants <==> p in w.participants && p.activityId != act.id)
      && r.0.states == w.states
  {
    NoRowsLeft(w.participants, act.id);
    var acts := Filter(w.activities, OtherThan(act.id));
    forall k | 0 <= k < |acts| ensures acts[k].id != act.id {
      assert acts[k] in acts;
    }
  }

  /** Anyone but the creator is refused and nothing changes. */
  lemma OnlyCreatorDeletes(w: World, user: UserId, id: Option<int>, profile: Option<string>, act: Activity)
    requires Lookup(w, id) == Some(act) && act.creatorId != user
    ensures OnDelete(w, user, id, profile) == (w, NoPermission(act.name, DisplayName(profile, user)))
  {
  }

  /** Once an activity is deleted, asking for its roster is answered with silence. */
  lemma DeleteThenView(w: World, user: UserId, id: Option<int>, profile: Option<string>)
    ensures var r1 := OnDelete(w, user, id, profile);
      r1.1.Deleted? ==> OnView(r1.0, id) == (r1.0, Silent)
  {
    var r1 := OnDelete(w, user, id, profile);
    if r1.1.Deleted? {
      CreatorDeletes(w, user, id, profile, Lookup(w, id).value);
    }
  }

  /** After a delete button succeeded, the roster button of the same card is answered with silence. */
  lemma ViewAfterDelete(w: World, user: UserId, other: UserId, id: nat, picked: Option<string>, profile: Option<string>)
    ensures var r1 := OnPostback(w, user, ButtonData(DeleteTag, id), picked, profile);
      r1.1.Deleted? ==> OnPostback(r1.0, other, ButtonData(ViewTag, id), picked, profile) == (r1.0, Silent)
  {
    var r1 := OnDelete(w, user, Some(id), profile);
    assert OnPostback(w, user, ButtonData(DeleteTag, id), picked, profile) == r1 by {
      DeleteButtonRoundTrip(id);
    }
    assert OnPostback(r1.0, other, ButtonData(ViewTag, id), picked, profile) == OnView(r1.0, Some(id)) by {
      ViewButtonRoundTrip(id);
    }
    DeleteThenView(w, user, Some(id), profile);
  }

  /**
   * The roster changes nothing and shows the activity's name and time, a
   * headcount that is the number of rows of the activity, and the checklist
   * of those rows' names. Where no stored name holds a line break, the
   * headcount is also the number of checklist lines it shows.
   */
  lemma RosterCountsItsLines(w: World, id: Option<int>, act: Activity)
    requires Lookup(w, id) == Some(act)
    ensures var r := OnView(w, id);
      && r.0 == w && r.1.Roster? && r.1.activity == act.name
      && r.1 == Roster(act.name, act.datetime, |ParticipantsOf(w.participants, act.id)|,
                       RosterText(ParticipantsOf(w.participants, act.id)))
      && r.1.headcount == |ParticipantsOf(w.participants, act.id)|
      && (r.1.headcount == 0 <==> ParticipantsOf(w.participants, act.id) == [])
      && (((forall i :: 0 <= i < |w.participants| ==> '\n' !in w.participants[i].userName) && r.1.headcount > 0)
          ==> |Split(r.1.checklist, '\n')| == r.1.headcount)
  {
    var roster := ParticipantsOf(w.participants, act.id);
    if roster != [] && forall i :: 0 <= i < |w.participants| ==> '\n' !in w.participants[i].userName {
      forall i | 0 <= i < |roster| ensures '\n' !in roster[i].userName {
        assert roster[i] in w.participants;
      }
      RosterLines(roster);
    }
  }

  // -------------------------------------------------------- by-name commands

  /**
   * `+` finds the earliest activity of that name, checks for an existing
   * row by person name only, and otherwise adds a row for that person under
   * the sender's user id.
   */
  lemma AddStep(w: World, user: UserId, a: string, p: string, act: Activity)
    requires FirstNamed(w.activities, a) == Some(act)
    ensures var r := OnAdd(w, user, a, p);
      var row := Participant(w.nextParticipantId, user, p, act.id);
      var listed := |Filter(w.participants, ListedAs(act.id, p))|;
      && (listed > 0 ==> r == (w, AlreadyListed(a, p)))
      && (listed == 0 && ParticipantFits(row) ==>
            && r.0.participants == w.participants + [row]
            && r.1 == Added(a, p, act.datetime, |ParticipantsOf(w.participants, act.id)| + 1))
      && (listed == 0 && !ParticipantFits(row) ==> r == (w, Silent))
  {
    var row := Participant(w.nextParticipantId, user, p, act.id);
    var ps := w.participants + [row];
    assert FirstIndex(w.participants, ListedAs(act.id, p)).None? <==> |Filter(w.participants, ListedAs(act.id, p))| == 0 by {
      FilterEmpty(w.participants, ListedAs(act.id, p));
    }
    if |Filter(w.participants, ListedAs(act.id, p))| == 0 && ParticipantFits(row) {
      assert OnAdd(w, user, a, p)
        == (w.(participants := ps, nextParticipantId := w.nextParticipantId + 1),
            Added(a, p, act.datetime, |ParticipantsOf(ps, act.id)|));
      assert |ParticipantsOf(ps, act.id)| == |ParticipantsOf(w.participants, act.id)| + 1 by {
        FilterAppend(w.participants, row, InActivity(act.id));
      }
    }
  }

  /** Both by-name commands answer "not found" and change nothing when no activity has that name. */
  lemma UnknownActivityName(w: World, user: UserId, a: string, p: string)
    requires FirstNamed(w.activities, a).None?
    ensures OnAdd(w, user, a, p) == (w, ActivityNotFound(a))
    ensures OnRemove(w, a, p) == (w, ActivityNotFound(a))
  {
  }

  /**
   * Because `+` records the sender's user id, every person added this way
   * counts as one more row of the sender in that activity: a user who has
   * joined and then adds someone holds two rows, so the at-most-one-row
   * uniqueness that joining keeps does not hold of the whole table.
   */
  lemma AddByNameCountsAsSender(w: World, user: UserId, a: string, p: string, act: Activity)
    requires FirstNamed(w.activities, a) == Some(act)
    requires Filter(w.participants, ListedAs(act.id, p)) == []
    requires ParticipantFits(Participant(w.nextParticipantId, user, p, act.id))
    ensures JoinCount(OnAdd(w, user, a, p).0.participants, act.id, user) == JoinCount(w.participants, act.id, user) + 1
  {
    AddStep(w, user, a, p, act);
    FilterAppend(w.participants, Participant(w.nextParticipantId, user, p, act.id), JoinedBy(act.id, user));
  }

  /**
   * `➜ -` removes the first row listed under that person name, keeping every
   * other row where it was, or removes none; it changes nothing else.
   */
  lemma RemoveStep(w: World, a: string, p: string, act: Activity)
    requires FirstNamed(w.activities, a) == Some(act)
    ensures var r := OnRemove(w, a, p);
      var listed := |Filter(w.participants, ListedAs(act.id, p))|;
      && (listed > 0 ==>
            && (exists i :: && 0 <= i < |w.participants| && ListedAs(act.id, p)(w.participants[i])
                            && (forall j :: 0 <= j < i ==> !ListedAs(act.id, p)(w.participants[j]))
                            && r.0.participants == RemoveAt(w.participants, i))
            && |r.0.participants| == |w.participants| - 1
            && |Filter(r.0.participants, ListedAs(act.id, p))| == listed - 1
            && r.1 == RemovedFromList(a, p))
      && (listed == 0 ==> r == (w, NotOnList(a, p)))
      && r.0.activities == w.activities && r.0.states == w.states
  {
    FilterEmpty(w.participants, ListedAs(act.id, p));
    match FirstIndex(w.participants, ListedAs(act.id, p)) {
      case Some(i) => FilterRemoveAt(w.participants, i, ListedAs(act.id, p));
      case None =>
    }
  }

  /** No permission check guards removal by name: who sends it makes no difference. */
  lemma RemoveByNameIgnoresSender(w: World, u1: UserId, u2: UserId, text: string)
    requires ClassifyText(text).RemoveParticipant?
    ensures OnText(w, u1, text) == OnText(w, u2, text)
  {
  }

  // ---------------------------------------------------------- delete everything

  /** `說明` only shows the help text. */
  lemma HelpOnlyReplies(w: World, user: UserId)
    ensures OnText(w, user, HelpWord) == (w, HelpText)
  {
  }

  /** `副本` only shows the list of the current activities. */
  lemma ListOnlyReplies(w: World, user: UserId)
    ensures OnText(w, user, ListWord) == (w, ListReply(w))
  {
  }

  /** Typing `刪除所有副本` only asks for confirmation. */
  lemma DeleteAllAsksFirst(w: World, user: UserId)
    ensures OnText(w, user, DeleteAllWord) == (w, DeleteAllConfirmation)
  {
  }

  /** Declining the confirmation changes nothing. */
  lemma DeclineDeleteAll(w: World, user: UserId, picked: Option<string>, profile: Option<string>)
    ensures OnPostback(w, user, CancelDeleteAllTag, picked, profile) == (w, DeleteAllCancelled)
  {
    CancelAllButtonRoundTrip();
  }

  /** Confirming empties both tables (for any sender), leaves pending creations alone, and the list then says there are none. */
  lemma ConfirmDeleteAllEmpties(w: World, user: UserId, picked: Option<string>, profile: Option<string>)
    ensures var r := OnPostback(w, user, ConfirmDeleteAllTag, picked, profile);
      && r.0.activities == [] && r.0.participants == [] && r.0.states == w.states
      && r.1 == AllDeleted && ListReply(r.0) == NoActivities
  {
    ConfirmButtonRoundTrip();
  }
}
