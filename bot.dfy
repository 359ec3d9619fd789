/**
 * The running bot: the two tables and `user_states` held as fields that the
 * two event handlers update in place, one step at a time. Each handler is
 * proved to perform exactly the transition of `OnText` / `OnPostback` and to
 * keep the invariant.
 */
module Bot {

  import opened Wrappers
  import opened Records
  import opened Commands
  import opened Replies
  import opened Dispatch
  import opened Properties

  class LineBot {
    var activities: seq<Activity>
    var participants: seq<Participant>
    var userStates: map<UserId, Entry>
    var nextActivityId: int
    var nextParticipantId: int

    /** The state as a value. */
    function Snapshot(): World
      reads this
    {
      World(activities, participants, userStates, nextActivityId, nextParticipantId)
    }

    ghost predicate Valid()
      reads this
    {
      Records.Valid(Snapshot())
    }

    /** Freshly created tables and an empty `user_states`. */
    constructor ()
      ensures Snapshot() == Empty && Valid()
    {
      activities := [];
      participants := [];
      userStates := map[];
      nextActivityId := 1;
      nextParticipantId := 1;
      EmptyValid();
    }

    /** Adds a participant row under the next id. */
    method AddRow(row: Participant)
      requires row.id == nextParticipantId
      modifies this
      ensures participants == old(participants) + [row] && nextParticipantId == old(nextParticipantId) + 1
      ensures activities == old(activities) && userStates == old(userStates) && nextActivityId == old(nextActivityId)
    {
      participants := participants + [row];
      nextParticipantId := nextParticipantId + 1;
    }

    /** The text-message handler. */
    method HandleTextMessage(user: UserId, text: string) returns (reply: Reply)
      requires Valid()
      modifies this
      ensures Valid()
      ensures (Snapshot(), reply) == OnText(old(Snapshot()), user, text)
    {
      OnTextKeepsValid(Snapshot(), user, text);
      match ClassifyText(text) {
        case AddParticipant(a, p) =>
          reply := HandleAdd(user, a, p);
        case AddFormatError =>
          reply := AddUsage;
        case Help =>
          reply := HelpText;
        case DeleteAllPrompt =>
          reply := DeleteAllConfirmation;
        case RemoveParticipant(a, p) =>
          reply := HandleRemove(a, p);
        case RemoveFormatError =>
          reply := RemoveUsage;
        case StartCreation(name) =>
          if name != [] {
            userStates := userStates[user := Entry(DatetimeStep, name)];
            reply := DatetimePicker;
          } else {
            reply := NameHint;
          }
        case ListActivities =>
          reply := ListReply(Snapshot());
        case Ignored =>
          reply := Silent;
      }
    }

    method HandleAdd(user: UserId, a: string, p: string) returns (reply: Reply)
      requires Valid()
      modifies this
      ensures Valid()
      ensures (Snapshot(), reply) == OnAdd(old(Snapshot()), user, a, p)
    {
      OnAddKeepsValid(Snapshot(), user, a, p);
      var found := FirstNamed(activities, a);
      if found.None? {
        reply := ActivityNotFound(a);
      } else {
        var act := found.value;
        if FirstIndex(participants, ListedAs(act.id, p)).Some? {
          reply := AlreadyListed(a, p);
        } else {
          var row := Participant(nextParticipantId, user, p, act.id);
          if !ParticipantFits(row) {
            reply := Silent;
          } else {
            AddRow(row);
            reply := Added(a, p, act.datetime, |ParticipantsOf(participants, act.id)|);
          }
        }
      }
    }

    method HandleRemove(a: string, p: string) returns (reply: Reply)
      requires Valid()
      modifies this
      ensures Valid()
      ensures (Snapshot(), reply) == OnRemove(old(Snapshot()), a, p)
    {
      OnRemoveKeepsValid(Snapshot(), a, p);
      var found := FirstNamed(activities, a);
      if found.None? {
        reply := ActivityNotFound(a);
      } else {
        var act := found.value;
        var listed := FirstIndex(participants, ListedAs(act.id, p));
        if listed.Some? {
          participants := RemoveAt(participants, listed.value);
          reply := RemovedFromList(a, p);
        } else {
          reply := NotOnList(a, p);
        }
      }
    }

    /** The postback handler; `picked` and `profile` as for `OnPostback`. */
    method HandlePostback(user: UserId, data: string, picked: Option<string>, profile: Option<string>) returns (reply: Reply)
      requires Valid()
      modifies this
      ensures Valid()
      ensures (Snapshot(), reply) == OnPostback(old(Snapshot()), user, data, picked, profile)
    {
      OnPostbackKeepsValid(Snapshot(), user, data, picked, profile);
      match ClassifyPostback(data) {
        case SelectDate =>
          reply := HandleSelectDate(user, picked);
        case JoinActivity(id) =>
          reply := HandleJoin(user, id, profile);
        case CancelJoin(id) =>
          reply := HandleCancelJoin(user, id, profile);
        case DeleteActivity(id) =>
          reply := HandleDelete(user, id, profile);
        case ViewParticipants(id) =>
          reply := HandleView(id);
        case ConfirmDeleteAll =>
          participants := [];
          activities := [];
          reply := AllDeleted;
        case CancelDeleteAll =>
          reply := DeleteAllCancelled;
        case UnknownAction =>
          reply := Silent;
      }
    }

    method HandleSelectDate(user: UserId, picked: Option<string>) returns (reply: Reply)
      requires Valid()
      modifies this
      ensures Valid()
      ensures (Snapshot(), reply) == OnSelectDate(old(Snapshot()), user, picked)
    {
      ghost var w0 := Snapshot();
      assert Records.Valid(OnSelectDate(w0, user, picked).0) by {
        OnSelectDateKeepsValid(w0, user, picked);
      }
      if picked.None? {
        reply := Silent;
      } else if user in userStates && userStates[user].step == DatetimeStep {
        var name := userStates[user].name;
        if name != [] {
          var act := Activity(nextActivityId, name, picked.value, user);
          if !ActivityFits(act) {
            reply := Silent;
          } else {
            ghost var w1 := w0.(activities := w0.activities + [act], nextActivityId := w0.nextActivityId + 1,
                                states := w0.states - {user});
            assert OnSelectDate(w0, user, picked) == (w1, ListReply(w1));
            activities := activities + [act];
            nextActivityId := nextActivityId + 1;
            userStates := userStates - {user};
            assert Snapshot() == w1;
            reply := ListReply(Snapshot());
          }
        } else {
          reply := CreationFailed;
        }
      } else {
        reply := RestartCreation;
      }
    }

    method HandleJoin(user: UserId, id: Option<int>, profile: Option<string>) returns (reply: Reply)
      requires Valid()
      modifies this
      ensures Valid()
      ensures (Snapshot(), reply) == OnJoin(old(Snapshot()), user, id, profile)
    {
      OnJoinKeepsValid(Snapshot(), user, id, profile);
      var found := Lookup(Snapshot(), id);
      if found.None? {
        reply := Silent;
      } else {
        var act := found.value;
        var name := DisplayName(profile, user);
        if FirstIndex(participants, JoinedBy(act.id, user)).Some? {
          reply := AlreadyJoined(act.name, name);
        } else {
          var row := Participant(nextParticipantId, user, name, act.id);
          if !ParticipantFits(row) {
            reply := Silent;
          } else {
            AddRow(row);
            reply := Joined(act.name, name, act.datetime, |ParticipantsOf(participants, act.id)|);
          }
        }
      }
    }

    method HandleCancelJoin(user: UserId, id: Option<int>, profile: Option<string>) returns (reply: Reply)
      requires Valid()
      modifies this
      ensures Valid()
      ensures (Snapshot(), reply) == OnCancelJoin(old(Snapshot()), user, id, profile)
    {
      OnCancelJoinKeepsValid(Snapshot(), user, id, profile);
      var found := Lookup(Snapshot(), id);
      if found.None? {
        reply := Silent;
      } else {
        var act := found.value;
        var name := DisplayName(profile, user);
        var joined := FirstIndex(participants, JoinedBy(act.id, user));
        if joined.Some? {
          participants := RemoveAt(participants, joined.value);
          reply := Left(act.name, name);
        } else {
          reply := NotJoined(act.name, name);
        }
      }
    }

    method HandleDelete(user: UserId, id: Option<int>, profile: Option<string>) returns (reply: Reply)
      requires Valid()
      modifies this
      ensures Valid()
      ensures (Snapshot(), reply) == OnDelete(old(Snapshot()), user, id, profile)
    {
      OnDeleteKeepsValid(Snapshot(), user, id, profile);
      var found := Lookup(Snapshot(), id);
      if found.None? {
        reply := Silent;
      } else {
        var act := found.value;
        if act.creatorId == user {
          participants := Filter(participants, OutsideActivity(act.id));
          activities := Filter(activities, OtherThan(act.id));
          reply := Deleted(act.name);
        } else {
          reply := NoPermission(act.name, DisplayName(profile, user));
        }
      }
    }

    method HandleView(id: Option<int>) returns (reply: Reply)
      ensures reply == OnView(Snapshot(), id).1
    {
      var found := Lookup(Snapshot(), id);
      if found.None? {
        reply := Silent;
      } else {
        var act := found.value;
        var roster := ParticipantsOf(participants, act.id);
        reply := Roster(act.name, act.datetime, |roster|, RosterText(roster));
      }
    }
  }
}
