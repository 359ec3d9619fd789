/**
 * Classification of the two kinds of inbound event: the text of a text
 * message (exact words and prefixes, tested in a fixed order) and the data
 * string of a postback (substring tests for `action=<tag>`, in a fixed order,
 * and the `&id=<n>` argument).
 */
module Commands {

  import opened Wrappers
  import opened Text

  const AddPrefix := "+ "
  const HelpWord := "說明"
  const DeleteAllWord := "刪除所有副本"
  const RemovePrefix := "➜ - "
  const CreatePrefix := "副本 "
  const ListWord := "副本"

  /** What a text message asks for. */
  datatype TextCommand =
    | AddParticipant(activityName: string, personName: string)
    | AddFormatError
    | Help
    | DeleteAllPrompt
    | RemoveParticipant(activityName: string, personName: string)
    | RemoveFormatError
    | StartCreation(name: string)
    | ListActivities
    | Ignored

  /**
   * The text dispatcher's classification. `+ ` needs exactly three
   * space-separated parts and `➜ - ` exactly four; the name after `副本 `
   * is stripped and may come out empty.
   */
  function ClassifyText(text: string): (c: TextCommand)
    ensures (c.AddParticipant? || c.AddFormatError?) <==> AddPrefix <= text
    ensures c.Help? <==> text == HelpWord
    ensures c.DeleteAllPrompt? <==> text == DeleteAllWord
    ensures (c.RemoveParticipant? || c.RemoveFormatError?) <==> RemovePrefix <= text
    ensures c.StartCreation? <==> CreatePrefix <= text
    ensures c.StartCreation? ==> c.name == Strip(text[|CreatePrefix|..])
    ensures c.ListActivities? <==> text == ListWord
    ensures c.Ignored? <==>
      && !(AddPrefix <= text) && text != HelpWord && text != DeleteAllWord
      && !(RemovePrefix <= text) && !(CreatePrefix <= text) && text != ListWord
  {
    if AddPrefix <= text then
      var parts := Split(text, ' ');
      if |parts| == 3 then AddParticipant(parts[1], parts[2]) else AddFormatError
    else if text == HelpWord then Help
    else if text == DeleteAllWord then DeleteAllPrompt
    else if RemovePrefix <= text then
      var parts := Split(text, ' ');
      if |parts| == 4 then RemoveParticipant(parts[2], parts[3]) else RemoveFormatError
    else if CreatePrefix <= text then StartCreation(Strip(text[|CreatePrefix|..]))
    else if text == ListWord then ListActivities
    else Ignored
  }

  lemma JoinThree(x: string, y: string, z: string)
    ensures Join([x, y, z], ' ') == x + " " + y + " " + z
  {
    assert [x, y, z][1..] == [y, z];
    assert [y, z][1..] == [z];
    assert Join([z], ' ') == z;
    assert Join([y, z], ' ') == y + [' '] + z;
    assert " " == [' '];
  }

  lemma JoinFour(w: string, x: string, y: string, z: string)
    ensures Join([w, x, y, z], ' ') == w + " " + x + " " + y + " " + z
  {
    assert [w, x, y, z][1..] == [x, y, z];
    JoinThree(x, y, z);
  }

  /**
   * `+ A P` is recognised exactly when the text is `+`, A and P joined by
   * single spaces with no space inside A or P.
   */
  lemma AddCommandShape(text: string, a: string, p: string)
    ensures ClassifyText(text) == AddParticipant(a, p) <==> (text == AddPrefix + a + " " + p && ' ' !in a && ' ' !in p)
  {
    if text == AddPrefix + a + " " + p && ' ' !in a && ' ' !in p {
      AddCommandRecognised(a, p);
    }
    if ClassifyText(text) == AddParticipant(a, p) {
      AddCommandParsed(text);
    }
  }

  lemma {:induction false} AddCommandRecognised(a: string, p: string)
    requires ' ' !in a && ' ' !in p
    ensures ClassifyText(AddPrefix + a + " " + p) == AddParticipant(a, p)
  {
    var text := AddPrefix + a + " " + p;
    JoinThree("+", a, p);
    assert text == "+" + " " + a + " " + p;
    SplitJoin(["+", a, p], ' ');
    assert AddPrefix <= text;
  }

  lemma {:induction false} AddCommandParsed(text: string)
    requires ClassifyText(text).AddParticipant?
    ensures var c := ClassifyText(text);
      text == AddPrefix + c.activityName + " " + c.personName && ' ' !in c.activityName && ' ' !in c.personName
  {
    var parts := Split(text, ' ');
    assert |parts| == 3;
    JoinSplit(text, ' ');
    assert parts == [parts[0], parts[1], parts[2]];
    JoinThree(parts[0], parts[1], parts[2]);
    assert text == "+" + [' '] + text[2..];
    SplitAfter("+", text[2..], ' ');
    assert parts[0] == "+";
  }

  /**
   * `➜ - A P` is recognised exactly when the text is `➜`, `-`, A and P joined
   * by single spaces with no space inside A or P.
   */
  lemma RemoveCommandShape(text: string, a: string, p: string)
    ensures ClassifyText(text) == RemoveParticipant(a, p) <==> (text == RemovePrefix + a + " " + p && ' ' !in a && ' ' !in p)
  {
    if text == RemovePrefix + a + " " + p && ' ' !in a && ' ' !in p {
      RemoveCommandRecognised(a, p);
    }
    if ClassifyText(text) == RemoveParticipant(a, p) {
      RemoveCommandParsed(text);
    }
  }

  lemma {:induction false} RemoveCommandRecognised(a: string, p: string)
    requires ' ' !in a && ' ' !in p
    ensures ClassifyText(RemovePrefix + a + " " + p) == RemoveParticipant(a, p)
  {
    var text := RemovePrefix + a + " " + p;
    JoinFour("➜", "-", a, p);
    assert text == "➜" + " " + "-" + " " + a + " " + p;
    SplitJoin(["➜", "-", a, p], ' ');
    assert RemovePrefix <= text;
    assert !(AddPrefix <= text) && text != HelpWord && text != DeleteAllWord;
  }

  lemma {:induction false} RemoveCommandParsed(text: string)
    requires ClassifyText(text).RemoveParticipant?
    ensures var c := ClassifyText(text);
      text == RemovePrefix + c.activityName + " " + c.personName && ' ' !in c.activityName && ' ' !in c.personName
  {
    var c := ClassifyText(text);
    var ps := Split(text, ' ');
    assert |ps| == 4 && c.activityName == ps[2] && c.personName == ps[3];
    var rest := text[4..];
    assert text == "➜" + [' '] + ("-" + [' '] + rest) by {
      assert RemovePrefix <= text;
    }
    assert ps[0] == "➜" && ps[1] == "-" by {
      SplitAfter("-", rest, ' ');
      SplitAfter("➜", "-" + [' '] + rest, ' ');
    }
    assert text == Join(ps, ' ') by {
      JoinSplit(text, ' ');
    }
    assert ps == [ps[0], ps[1], ps[2], ps[3]];
    JoinFour(ps[0], ps[1], ps[2], ps[3]);
  }

  /** `副本 <rest>` starts a creation named by the stripped rest, whatever the rest is. */
  lemma CreateCommandRecognised(rest: string)
    ensures ClassifyText(CreatePrefix + rest) == StartCreation(Strip(rest))
  {
    var text := CreatePrefix + rest;
    assert text[0] == '副';
    assert !(AddPrefix <= text) && !(RemovePrefix <= text) by {
      assert AddPrefix[0] != text[0] && RemovePrefix[0] != text[0];
    }
    assert text != HelpWord && text != DeleteAllWord by {
      assert HelpWord[0] != text[0] && DeleteAllWord[0] != text[0];
    }
    assert CreatePrefix <= text;
    assert text[|CreatePrefix|..] == rest;
  }

  // --------------------------------------------------------------- postbacks

  const ActionKey := "action="
  const SelectDateTag := ActionKey + "select_date"
  const JoinTag := ActionKey + "join_activity"
  const CancelJoinTag := ActionKey + "cancel_join"
  const DeleteTag := ActionKey + "delete_activity"
  const ViewTag := ActionKey + "view_participants"
  const ConfirmDeleteAllTag := ActionKey + "confirm_delete_all"
  const CancelDeleteAllTag := ActionKey + "cancel_delete_all"
  const IdKey := "&id="

  /**
   * What a postback asks for. An `id` of None stands for the exception
   * `int(data.split('&id=')[1])` raises on data without a well-formed id.
   */
  datatype PostbackCommand =
    | SelectDate
    | JoinActivity(id: Option<int>)
    | CancelJoin(id: Option<int>)
    | DeleteActivity(id: Option<int>)
    | ViewParticipants(id: Option<int>)
    | ConfirmDeleteAll
    | CancelDeleteAll
    | UnknownAction

  /** `int(data.split('&id=')[1])`, None where Python raises. */
  function IdArgument(data: string): (r: Option<int>)
    ensures r.Some? ==> Contains(data, IdKey)
  {
    match SecondField(data, IdKey)
    case None => None
    case Some(field) => ParseInt(field)
  }

  /** The postback dispatcher's classification: the first tag contained in the data wins. */
  function ClassifyPostback(data: string): (c: PostbackCommand)
    ensures c.SelectDate? <==> Contains(data, SelectDateTag)
    ensures c.JoinActivity? <==> !Contains(data, SelectDateTag) && Contains(data, JoinTag)
    ensures c.CancelJoin? <==>
      !Contains(data, SelectDateTag) && !Contains(data, JoinTag) && Contains(data, CancelJoinTag)
    ensures c.DeleteActivity? <==>
      && !Contains(data, SelectDateTag) && !Contains(data, JoinTag) && !Contains(data, CancelJoinTag)
      && Contains(data, DeleteTag)
    ensures c.ViewParticipants? <==>
      && !Contains(data, SelectDateTag) && !Contains(data, JoinTag) && !Contains(data, CancelJoinTag)
      && !Contains(data, DeleteTag) && Contains(data, ViewTag)
    ensures c.ConfirmDeleteAll? <==>
      && !Contains(data, SelectDateTag) && !Contains(data, JoinTag) && !Contains(data, CancelJoinTag)
      && !Contains(data, DeleteTag) && !Contains(data, ViewTag) && Contains(data, ConfirmDeleteAllTag)
    ensures c.CancelDeleteAll? <==>
      && !Contains(data, SelectDateTag) && !Contains(data, JoinTag) && !Contains(data, CancelJoinTag)
      && !Contains(data, DeleteTag) && !Contains(data, ViewTag) && !Contains(data, ConfirmDeleteAllTag)
      && Contains(data, CancelDeleteAllTag)
    ensures c.UnknownAction? <==>
      && !Contains(data, SelectDateTag) && !Contains(data, JoinTag) && !Contains(data, CancelJoinTag)
      && !Contains(data, DeleteTag) && !Contains(data, ViewTag)
      && !Contains(data, ConfirmDeleteAllTag) && !Contains(data, CancelDeleteAllTag)
    ensures c.JoinActivity? || c.CancelJoin? || c.DeleteActivity? || c.ViewParticipants? ==> c.id == IdArgument(data)
  {
    if Contains(data, SelectDateTag) then SelectDate
    else if Contains(data, JoinTag) then JoinActivity(IdArgument(data))
    else if Contains(data, CancelJoinTag) then CancelJoin(IdArgument(data))
    else if Contains(data, DeleteTag) then DeleteActivity(IdArgument(data))
    else if Contains(data, ViewTag) then ViewParticipants(IdArgument(data))
    else if Contains(data, ConfirmDeleteAllTag) then ConfirmDeleteAll
    else if Contains(data, CancelDeleteAllTag) then CancelDeleteAll
    else UnknownAction
  }

  // ------------------------------------------- buttons round-trip through dispatch

  /** The data of a list button for activity `id`: `f"action=<tag>&id={activity.id}"`. */
  function ButtonData(tag: string, id: nat): string
  {
    tag + IdKey + Decimal(id)
  }

  /** Where every occurrence of `p` in `s` is at the start, `p in s` is a prefix test. */
  lemma ContainsAtStartOnly(s: string, p: string)
    requires forall i :: OccursAt(s, p, i) ==> i == 0
    ensures Contains(s, p) <==> p <= s
  {
    if p <= s {
      assert s[0..|p|] == p;
      assert OccursAt(s, p, 0);
    }
    if Contains(s, p) {
      assert s[0..|p|] == s[..|p|];
    }
  }

  /**
   * In button data for action `name`, the key `action=` of another action
   * `other` can only occur at the start: `=` occurs only after `action` and
   * after `&id`, and the latter is followed by a digit.
   */
  lemma {:induction false} ActionKeyOnlyAtStart(name: string, other: string, d: string)
    requires '=' !in name && AllDigits(d)
    requires other != [] && !IsDigit(other[0])
    ensures forall i :: OccursAt(ActionKey + name + IdKey + d, ActionKey + other, i) ==> i == 0
  {
    var s := ActionKey + name + IdKey + d;
    var p := ActionKey + other;
    forall i | OccursAt(s, p, i) ensures i == 0 {
      assert s[i + 6] == s[i..i + |p|][6] == p[6] == '=';
      assert s[i + 7] == s[i..i + |p|][7] == p[7] == other[0];
    }
  }

  /** The same for a button without an id (the delete-all confirmation card). */
  lemma {:induction false} ActionKeyOnlyAtStartBare(name: string, other: string)
    requires '=' !in name
    ensures forall i :: OccursAt(ActionKey + name, ActionKey + other, i) ==> i == 0
  {
    var s := ActionKey + name;
    var p := ActionKey + other;
    forall i | OccursAt(s, p, i) ensures i == 0 {
      assert s[i + 6] == s[i..i + |p|][6] == p[6];
    }
  }

  /** A button for action `name` does not carry the tag of a different action `other`. */
  lemma NotTagged(name: string, other: string, d: string, k: nat)
    requires '=' !in name && AllDigits(d)
    requires other != [] && !IsDigit(other[0])
    requires k < |name| && k < |other| && name[k] != other[k]
    ensures !Contains(ActionKey + name + IdKey + d, ActionKey + other)
  {
    var s := ActionKey + name + IdKey + d;
    ActionKeyOnlyAtStart(name, other, d);
    ContainsAtStartOnly(s, ActionKey + other);
    assert s[7 + k] == name[k];
  }

  lemma NotTaggedBare(name: string, other: string, k: nat)
    requires '=' !in name
    requires k < |name| && k < |other| && name[k] != other[k]
    ensures !Contains(ActionKey + name, ActionKey + other)
  {
    ActionKeyOnlyAtStartBare(name, other);
    ContainsAtStartOnly(ActionKey + name, ActionKey + other);
    assert (ActionKey + name)[7 + k] == name[k];
  }

  /** A tag at the start of the data is contained in it. */
  lemma TaggedAtStart(tag: string, rest: string)
    ensures Contains(tag + rest, tag)
  {
    assert (tag + rest)[0..|tag|] == tag;
    assert OccursAt(tag + rest, tag, 0);
  }

  /** The id of a button reads back as the activity id it was built from. */
  lemma {:induction false} ButtonId(tag: string, id: nat)
    requires '&' !in tag
    ensures IdArgument(ButtonData(tag, id)) == Some(id)
  {
    var s := ButtonData(tag, id);
    var d := Decimal(id);
    assert s[|tag|..|tag| + 4] == IdKey;
    assert OccursAt(s, IdKey, |tag|);
    forall i | 0 <= i < |tag| ensures !OccursAt(s, IdKey, i) {
      assert s[i] == tag[i];
    }
    assert Find(s, IdKey) == Some(|tag|);
    assert s[|tag| + |IdKey|..] == d;
    forall i | 0 <= i && i + 4 <= |d| ensures !OccursAt(d, IdKey, i) {
      assert IsDigit(d[i]);
    }
    assert Find(d, IdKey) == None;
    ParseDecimal(id);
  }

  /** The list's join button for activity `id` is dispatched as a join of `id`. */
  lemma JoinButtonRoundTrip(id: nat)
    ensures ClassifyPostback(ButtonData(JoinTag, id)) == JoinActivity(Some(id))
  {
    var d := Decimal(id);
    var s := ButtonData(JoinTag, id);
    assert !Contains(s, SelectDateTag) by {
      NotTagged("join_activity", "select_date", d, 0);
    }
    assert Contains(s, JoinTag) by {
      TaggedAtStart(JoinTag, IdKey + d);
    }
    assert IdArgument(s) == Some(id) by {
      ButtonId(JoinTag, id);
    }
  }

  /** The list's cancel button for activity `id` is dispatched as leaving `id`. */
  lemma CancelButtonRoundTrip(id: nat)
    ensures ClassifyPostback(ButtonData(CancelJoinTag, id)) == CancelJoin(Some(id))
  {
    var d := Decimal(id);
    var s := ButtonData(CancelJoinTag, id);
    assert !Contains(s, SelectDateTag) by {
      NotTagged("cancel_join", "select_date", d, 0);
    }
    assert !Contains(s, JoinTag) by {
      NotTagged("cancel_join", "join_activity", d, 0);
    }
    assert Contains(s, CancelJoinTag) by {
      TaggedAtStart(CancelJoinTag, IdKey + d);
    }
    assert IdArgument(s) == Some(id) by {
      ButtonId(CancelJoinTag, id);
    }
  }

  /** The list's delete button for activity `id` is dispatched as deleting `id`. */
  lemma DeleteButtonRoundTrip(id: nat)
    ensures ClassifyPostback(ButtonData(DeleteTag, id)) == DeleteActivity(Some(id))
  {
    var d := Decimal(id);
    var s := ButtonData(DeleteTag, id);
    assert !Contains(s, SelectDateTag) by {
      NotTagged("delete_activity", "select_date", d, 0);
    }
    assert !Contains(s, JoinTag) by {
      NotTagged("delete_activity", "join_activity", d, 0);
    }
    assert !Contains(s, CancelJoinTag) by {
      NotTagged("delete_activity", "cancel_join", d, 0);
    }
    assert Contains(s, DeleteTag) by {
      TaggedAtStart(DeleteTag, IdKey + d);
    }
    assert IdArgument(s) == Some(id) by {
      ButtonId(DeleteTag, id);
    }
  }

  /** The list's roster button for activity `id` is dispatched as viewing `id`. */
  lemma ViewButtonRoundTrip(id: nat)
    ensures ClassifyPostback(ButtonData(ViewTag, id)) == ViewParticipants(Some(id))
  {
    var d := Decimal(id);
    var s := ButtonData(ViewTag, id);
    assert !Contains(s, SelectDateTag) by {
      NotTagged("view_participants", "select_date", d, 0);
    }
    assert !Contains(s, JoinTag) by {
      NotTagged("view_participants", "join_activity", d, 0);
    }
    assert !Contains(s, CancelJoinTag) by {
      NotTagged("view_participants", "cancel_join", d, 0);
    }
    assert !Contains(s, DeleteTag) by {
      NotTagged("view_participants", "delete_activity", d, 0);
    }
    assert Contains(s, ViewTag) by {
      TaggedAtStart(ViewTag, IdKey + d);
    }
    assert IdArgument(s) == Some(id) by {
      ButtonId(ViewTag, id);
    }
  }

  /** The date/time picker's data is dispatched as the end of the creation flow. */
  lemma PickerRoundTrip()
    ensures ClassifyPostback(SelectDateTag) == SelectDate
  {
    TaggedAtStart(SelectDateTag, "");
    assert SelectDateTag + "" == SelectDateTag;
  }

  /** The "yes" button of the delete-all card is dispatched as confirming. */
  lemma ConfirmButtonRoundTrip()
    ensures ClassifyPostback(ConfirmDeleteAllTag) == ConfirmDeleteAll
  {
    NotTaggedBare("confirm_delete_all", "select_date", 0);
    NotTaggedBare("confirm_delete_all", "join_activity", 0);
    NotTaggedBare("confirm_delete_all", "cancel_join", 1);
    NotTaggedBare("confirm_delete_all", "delete_activity", 0);
    NotTaggedBare("confirm_delete_all", "view_participants", 0);
    TaggedAtStart(ConfirmDeleteAllTag, "");
    assert ConfirmDeleteAllTag + "" == ConfirmDeleteAllTag;
  }

  /** The "no" button of the delete-all card is dispatched as cancelling. */
  lemma CancelAllButtonRoundTrip()
    ensures ClassifyPostback(CancelDeleteAllTag) == CancelDeleteAll
  {
    NotTaggedBare("cancel_delete_all", "select_date", 0);
    NotTaggedBare("cancel_delete_all", "join_activity", 0);
    NotTaggedBare("cancel_delete_all", "cancel_join", 7);
    NotTaggedBare("cancel_delete_all", "delete_activity", 0);
    NotTaggedBare("cancel_delete_all", "view_participants", 0);
    NotTaggedBare("cancel_delete_all", "confirm_delete_all", 1);
    TaggedAtStart(CancelDeleteAllTag, "");
    assert CancelDeleteAllTag + "" == CancelDeleteAllTag;
  }
}
