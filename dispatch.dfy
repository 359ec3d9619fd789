/**
 * One inbound event as one transition of the bot's state: the text-message
 * handler and the postback handler as pure functions from the state before
 * the event to the state after it and the reply sent.
 */
module Dispatch {

  import opened Wrappers
  import opened Text
  import opened Records
  import opened Commands
  import opened Replies

  /** The profile's display name, or the user id when the profile lookup failed. */
  function DisplayName(profile: Option<string>, user: UserId): string
  {
    match profile
    case Some(name) => name
    case None => user
  }

  /**
   * `int(data.split('&id=')[1])` followed by `Activity.query.get(...)`: None
   * both where the id does not parse (the exception is swallowed) and where
   * no activity has it; the handlers answer both with silence.
   */
  function Lookup(w: World, id: Option<int>): (r: Option<Activity>)
    ensures r.Some? ==> id.Some? && r.value in w.activities && r.value.id == id.value
    ensures r.None? <==> id.None? || forall k :: 0 <= k < |w.activities| ==> w.activities[k].id != id.value
  {
    if id.Some? then ActivityById(w.activities, id.value) else None
  }

  /** The state after adding `row` to the participant table and advancing its key. */
  function Insert(w: World, row: Participant): (w': World)
    requires row.id == w.nextParticipantId
    ensures w'.participants == w.participants + [row] && w'.nextParticipantId == w.nextParticipantId + 1
    ensures w'.activities == w.activities && w'.states == w.states && w'.nextActivityId == w.nextActivityId
  {
    w.(participants := w.participants + [row], nextParticipantId := w.nextParticipantId + 1)
  }

  /**
   * The text-message handler. Text commands never create or delete an
   * activity, change at most the sender's own conversation entry, and
   * change the participant table by at most one row.
   */
  function OnText(w: World, user: UserId, text: string): (r: (World, Reply))
    ensures r.0.activities == w.activities && r.0.nextActivityId == w.nextActivityId
    ensures r.0.states != w.states ==>
      ClassifyText(text).StartCreation? && r.0.states == w.states[user := Entry(DatetimeStep, ClassifyText(text).name)]
    ensures || r.0.participants == w.participants
            || (|r.0.participants| == |w.participants| + 1 && r.0.participants[..|w.participants|] == w.participants)
            || exists i :: 0 <= i < |w.participants| && r.0.participants == RemoveAt(w.participants, i)
    ensures ClassifyText(text).Ignored? ==> r == (w, Silent)
    ensures ClassifyText(text).Help? ==> r == (w, HelpText)
    ensures ClassifyText(text).ListActivities? ==> r == (w, ListReply(w))
    ensures ClassifyText(text).DeleteAllPrompt? ==> r == (w, DeleteAllConfirmation)
    ensures ClassifyText(text).AddFormatError? ==> r == (w, AddUsage)
    ensures ClassifyText(text).RemoveFormatError? ==> r == (w, RemoveUsage)
  {
    match ClassifyText(text)
    case AddParticipant(a, p) => OnAdd(w, user, a, p)
    case AddFormatError => (w, AddUsage)
    case Help => (w, HelpText)
    case DeleteAllPrompt => (w, DeleteAllConfirmation)
    case RemoveParticipant(a, p) => OnRemove(w, a, p)
    case RemoveFormatError => (w, RemoveUsage)
    case StartCreation(name) =>
      if name != [] then (w.(states := w.states[user := Entry(DatetimeStep, name)]), DatetimePicker)
      else (w, NameHint)
    case ListActivities => (w, ListReply(w))
    case Ignored => (w, Silent)
  }

  /** `+ <activity> <person>`: lists `person` under the first activity of that name, on behalf of the sender. */
  function OnAdd(w: World, user: UserId, a: string, p: string): (r: (World, Reply))
    ensures r.0.activities == w.activities && r.0.states == w.states && r.0.nextActivityId == w.nextActivityId
    ensures || r.0 == w
            || (&& |r.0.participants| == |w.participants| + 1 && r.0.participants[..|w.participants|] == w.participants
                && r.0.nextParticipantId == w.nextParticipantId + 1)
  {
    match FirstNamed(w.activities, a)
    case None => (w, ActivityNotFound(a))
    case Some(act) =>
      if FirstIndex(w.participants, ListedAs(act.id, p)).Some? then (w, AlreadyListed(a, p))
      else
        var row := Participant(w.nextParticipantId, user, p, act.id);
        if !ParticipantFits(row) then (w, Silent)
        else
          var w' := Insert(w, row);
          (w', Added(a, p, act.datetime, |ParticipantsOf(w'.participants, act.id)|))
  }

  /** `➜ - <activity> <person>`: takes `person` off the first activity of that name, whoever listed them. */
  function OnRemove(w: World, a: string, p: string): (r: (World, Reply))
    ensures r.0.activities == w.activities && r.0.states == w.states
    ensures r.0.nextActivityId == w.nextActivityId && r.0.nextParticipantId == w.nextParticipantId
    ensures r.0 == w || exists i :: 0 <= i < |w.participants| && r.0.participants == RemoveAt(w.participants, i)
  {
    match FirstNamed(w.activities, a)
    case None => (w, ActivityNotFound(a))
    case Some(act) =>
      match FirstIndex(w.participants, ListedAs(act.id, p))
      case Some(i) => (w.(participants := RemoveAt(w.participants, i)), RemovedFromList(a, p))
      case None => (w, NotOnList(a, p))
  }

  /** `select_date`: the picker's answer completes the sender's pending creation. */
  function OnSelectDate(w: World, user: UserId, picked: Option<string>): (r: (World, Reply))
    ensures r.0.participants == w.participants && r.0.nextParticipantId == w.nextParticipantId
    ensures r.0 == w || (r.0.states == w.states - {user} && r.0.nextActivityId == w.nextActivityId + 1
                         && |r.0.activities| == |w.activities| + 1)
  {
    match picked
    case None => (w, Silent)
    case Some(when) =>
      if user in w.states && w.states[user].step == DatetimeStep then
        var name := w.states[user].name;
        if name != [] then
          var act := Activity(w.nextActivityId, name, when, user);
          if !ActivityFits(act) then (w, Silent)
          else
            var w' := w.(activities := w.activities + [act], nextActivityId := w.nextActivityId + 1,
                         states := w.states - {user});
            (w', ListReply(w'))
        else (w, CreationFailed)
      else (w, RestartCreation)
  }

  /** `join_activity`: the sender joins under their display name unless already joined. */
  function OnJoin(w: World, user: UserId, id: Option<int>, profile: Option<string>): (r: (World, Reply))
    ensures r.0.activities == w.activities && r.0.states == w.states && r.0.nextActivityId == w.nextActivityId
    ensures || r.0 == w
            || (&& |r.0.participants| == |w.participants| + 1 && r.0.participants[..|w.participants|] == w.participants
                && r.0.nextParticipantId == w.nextParticipantId + 1)
  {
    match Lookup(w, id)
    case None => (w, Silent)
    case Some(act) =>
      var name := DisplayName(profile, user);
      if FirstIndex(w.participants, JoinedBy(act.id, user)).Some? then (w, AlreadyJoined(act.name, name))
      else
        var row := Participant(w.nextParticipantId, user, name, act.id);
        if !ParticipantFits(row) then (w, Silent)
        else
          var w' := Insert(w, row);
          (w', Joined(act.name, name, act.datetime, |ParticipantsOf(w'.participants, act.id)|))
  }

  /** `cancel_join`: the sender's first row in the activity is deleted. */
  function OnCancelJoin(w: World, user: UserId, id: Option<int>, profile: Option<string>): (r: (World, Reply))
    ensures r.0.activities == w.activities && r.0.states == w.states
    ensures r.0.nextActivityId == w.nextActivityId && r.0.nextParticipantId == w.nextParticipantId
    ensures r.0 == w || exists i :: 0 <= i < |w.participants| && r.0.participants == RemoveAt(w.participants, i)
  {
    match Lookup(w, id)
    case None => (w, Silent)
    case Some(act) =>
      var name := DisplayName(profile, user);
      match FirstIndex(w.participants, JoinedBy(act.id, user))
      case Some(i) => (w.(participants := RemoveAt(w.participants, i)), Left(act.name, name))
      case None => (w, NotJoined(act.name, name))
  }

  /** `delete_activity`: the creator deletes the activity and its rows; anyone else is refused. */
  function OnDelete(w: World, user: UserId, id: Option<int>, profile: Option<string>): (r: (World, Reply))
    ensures |r.0.activities| <= |w.activities| && r.0.states == w.states
    ensures r.0.nextActivityId == w.nextActivityId && r.0.nextParticipantId == w.nextParticipantId
  {
    match Lookup(w, id)
    case None => (w, Silent)
    case Some(act) =>
      if act.creatorId == user then
        (w.(participants := Filter(w.participants, OutsideActivity(act.id)),
            activities := Filter(w.activities, OtherThan(act.id))),
         Deleted(act.name))
      else (w, NoPermission(act.name, DisplayName(profile, user)))
  }

  /** `view_participants`: the roster of the activity, changing nothing. */
  function OnView(w: World, id: Option<int>): (r: (World, Reply))
    ensures r.0 == w
  {
    match Lookup(w, id)
    case None => (w, Silent)
    case Some(act) =>
      var roster := ParticipantsOf(w.participants, act.id);
      (w, Roster(act.name, act.datetime, |roster|, RosterText(roster)))
  }

  /**
   * The postback handler. `picked` is the date/time the picker sent (None
   * where the postback carries none) and `profile` the outcome of the
   * profile lookup (None where it failed). Only `select_date` touches
   * `user_states`, and only by removing the sender's own entry; only
   * `select_date` adds an activity, and at most one.
   */
  function OnPostback(w: World, user: UserId, data: string, picked: Option<string>, profile: Option<string>): (r: (World, Reply))
    ensures r.0.states == w.states || (ClassifyPostback(data).SelectDate? && r.0.states == w.states - {user})
    ensures |r.0.activities| > |w.activities| ==> ClassifyPostback(data).SelectDate? && |r.0.activities| == |w.activities| + 1
    ensures r.0.nextActivityId >= w.nextActivityId && r.0.nextParticipantId >= w.nextParticipantId
    ensures ClassifyPostback(data).UnknownAction? ==> r == (w, Silent)
  {
    match ClassifyPostback(data)
    case SelectDate => OnSelectDate(w, user, picked)
    case JoinActivity(id) => OnJoin(w, user, id, profile)
    case CancelJoin(id) => OnCancelJoin(w, user, id, profile)
    case DeleteActivity(id) => OnDelete(w, user, id, profile)
    case ViewParticipants(id) => OnView(w, id)
    case ConfirmDeleteAll => (w.(activities := [], participants := []), AllDeleted)
    case CancelDeleteAll => (w, DeleteAllCancelled)
    case UnknownAction => (w, Silent)
  }
}
