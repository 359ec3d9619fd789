/**
 * The replies the handlers send, as abstract values (the Flex card layout is
 * not modelled), and the two replies whose content is computed: the activity
 * list, which splits each stored date/time into a date and a time, and the
 * roster text, a newline-joined checklist of participant names.
 */
module Replies {

  import opened Wrappers
  import opened Text
  import opened Records

  /** One entry of the activity list card. */
  datatype ListRow = ListRow(id: int, name: string, date: string, time: string, headcount: nat)

  datatype Reply =
    | Silent                                        // no reply: ignored text, unknown id, or a swallowed exception
    | HelpText                                      // the static command help
    | DeleteAllConfirmation                         // the yes/no card for deleting every activity
    | DatetimePicker                                // the card asking for the activity's date and time
    | NameHint                                      // "請輸入副本名稱，例如：副本 副本"
    | AddUsage                                      // "指令格式錯誤。請使用：+ [副本名稱] [人員名稱]"
    | RemoveUsage                                   // "指令格式錯誤。請使用：➜ - [副本名稱] [人員名稱]"
    | ActivityNotFound(activity: string)            // "找不到名為 {name} 的副本"
    | AlreadyListed(activity: string, person: string)
    | Added(activity: string, person: string, datetime: string, headcount: nat)
    | RemovedFromList(activity: string, person: string)
    | NotOnList(activity: string, person: string)
    | NoActivities                                  // "目前沒有任何副本"
    | ActivityList(rows: seq<ListRow>)
    | CreationFailed                                // "副本創建失敗，請重新輸入"
    | RestartCreation                               // "無法識別副本，請重新開始"
    | AlreadyJoined(activity: string, user: string)
    | Joined(activity: string, user: string, datetime: string, headcount: nat)
    | Left(activity: string, user: string)
    | NotJoined(activity: string, user: string)
    | Deleted(activity: string)
    | NoPermission(activity: string, user: string)
    | Roster(activity: string, datetime: string, headcount: nat, checklist: string)
    | AllDeleted                                    // "所有副本已刪除"
    | DeleteAllCancelled                            // "已取消刪除所有副本"

  // ------------------------------------------------------------ activity list

  /** The date/time split of one activity: None where `datetime.split()[1]` raises IndexError. */
  function DateAndTime(datetime: string): (r: Option<(string, string)>)
    ensures r.Some? <==> |Tokens(datetime)| >= 2
    ensures r.Some? ==> r.value.0 != [] && NoSpace(r.value.0) && r.value.1 != [] && NoSpace(r.value.1)
    ensures r.Some? ==> r.value == (Tokens(datetime)[0], Tokens(datetime)[1])
  {
    var ts := Tokens(datetime);
    if |ts| >= 2 then Some((ts[0], ts[1])) else None
  }

  /** The entries of the list card, one per activity in table order; None as soon as one date/time cannot be split. */
  function ListRows(acts: seq<Activity>, ps: seq<Participant>): (r: Option<seq<ListRow>>)
    ensures r.Some? <==> forall i :: 0 <= i < |acts| ==> DateAndTime(acts[i].datetime).Some?
    ensures r.Some? ==> |r.value| == |acts| && forall i :: 0 <= i < |acts| ==>
      && r.value[i].id == acts[i].id && r.value[i].name == acts[i].name
      && Some((r.value[i].date, r.value[i].time)) == DateAndTime(acts[i].datetime)
      && r.value[i].headcount == |ParticipantsOf(ps, acts[i].id)|
  {
    if acts == [] then Some([])
    else
      match DateAndTime(acts[0].datetime)
      case None => None
      case Some(dt) =>
        var a := acts[0];
        match ListRows(acts[1..], ps)
        case None => None
        case Some(rest) => Some([ListRow(a.id, a.name, dt.0, dt.1, |ParticipantsOf(ps, a.id)|)] + rest)
  }

  /** The reply of `create_activities_list_flex()`: a "no activities" text, the list, or nothing when it raises. */
  function ListReply(w: World): (r: Reply)
    ensures r == NoActivities <==> w.activities == []
    ensures r == Silent <==> exists i :: 0 <= i < |w.activities| && DateAndTime(w.activities[i].datetime).None?
    ensures r.ActivityList? ==> ListRows(w.activities, w.participants) == Some(r.rows)
  {
    if w.activities == [] then NoActivities
    else match ListRows(w.activities, w.participants)
      case None => Silent
      case Some(rows) => ActivityList(rows)
  }

  /** An activity stored with a date/time holding no whitespace makes the whole list reply fail. */
  lemma ListFailsOnUnsplitDatetime(w: World, i: nat)
    requires i < |w.activities| && NoSpace(w.activities[i].datetime)
    ensures ListReply(w) == Silent
  {
    TokensOfWord(w.activities[i].datetime);
  }

  /** Where every date/time is a date and a time joined by one space, the list shows every activity with its date, time and headcount. */
  lemma ListShowsEveryActivity(w: World, dates: seq<string>, times: seq<string>)
    requires w.activities != [] && |dates| == |times| == |w.activities|
    requires forall i :: 0 <= i < |w.activities| ==>
      && dates[i] != [] && times[i] != [] && NoSpace(dates[i]) && NoSpace(times[i])
      && w.activities[i].datetime == dates[i] + " " + times[i]
    ensures ListReply(w).ActivityList?
    ensures var rows := ListReply(w).rows;
      |rows| == |w.activities| && forall i :: 0 <= i < |rows| ==>
        rows[i] == ListRow(w.activities[i].id, w.activities[i].name, dates[i], times[i], |ParticipantsOf(w.participants, w.activities[i].id)|)
  {
    forall i | 0 <= i < |w.activities| ensures DateAndTime(w.activities[i].datetime) == Some((dates[i], times[i])) {
      TokensOfPair(dates[i], times[i]);
    }
  }

  // ------------------------------------------------------------------ roster

  /** The checklist lines of a roster: `f"✓ {p.user_name}"` per participant. */
  function Checklist(ps: seq<Participant>): (lines: seq<string>)
    ensures |lines| == |ps|
    ensures forall i :: 0 <= i < |ps| ==> lines[i] == "✓ " + ps[i].userName
  {
    seq(|ps|, i requires 0 <= i < |ps| => "✓ " + ps[i].userName)
  }

  /** `'\n'.join(...)` of the checklist; the empty roster gives the empty string. */
  function RosterText(ps: seq<Participant>): (r: string)
    ensures r == [] <==> ps == []
  {
    if ps == [] then "" else Join(Checklist(ps), '\n')
  }

  /** Where no name holds a line break, the roster text has exactly one line per participant, in table order. */
  lemma RosterLines(ps: seq<Participant>)
    requires ps != []
    requires forall i :: 0 <= i < |ps| ==> '\n' !in ps[i].userName
    ensures Split(RosterText(ps), '\n') == Checklist(ps)
  {
    var lines := Checklist(ps);
    forall k | 0 <= k < |lines| ensures '\n' !in lines[k] {
      assert lines[k] == "✓ " + ps[k].userName;
    }
    SplitJoin(lines, '\n');
  }
}
