/**
 * The bot's state: the `activity` and `participant` tables, kept in memory
 * in insertion order, and the per-user conversation memory `user_states`;
 * with the queries the handlers run against them.
 */
module Records {

  import opened Wrappers

  type UserId = string

  /** A row of the `activity` table; `creatorId` is the LINE user who created it. */
  datatype Activity = Activity(id: int, name: string, datetime: string, creatorId: UserId)

  /** A row of the `participant` table; `userName` is captured when the row is written. */
  datatype Participant = Participant(id: int, userId: UserId, userName: string, activityId: int)

  /** A `user_states` value: the step of the creation flow and the activity name chosen so far. */
  datatype Entry = Entry(step: string, name: string)

  /** The only step tag the handlers write and test. */
  const DatetimeStep := "datetime"

  /** Widths of the string columns; the store rejects a row with a longer value. */
  const NameWidth := 100
  const DatetimeWidth := 30
  const CreatorWidth := 50
  const UserIdWidth := 50
  const UserNameWidth := 100

  predicate ActivityFits(a: Activity)
  {
    |a.name| <= NameWidth && |a.datetime| <= DatetimeWidth && |a.creatorId| <= CreatorWidth
  }

  predicate ParticipantFits(p: Participant)
  {
    |p.userId| <= UserIdWidth && |p.userName| <= UserNameWidth
  }

  /**
   * Both tables in insertion order, `user_states`, and the next value of each
   * table's auto-assigned primary key.
   */
  datatype World = World(
    activities: seq<Activity>,
    participants: seq<Participant>,
    states: map<UserId, Entry>,
    nextActivityId: int,
    nextParticipantId: int)

  /** Freshly created tables and an empty `user_states`. */
  const Empty := World([], [], map[], 1, 1)

  // ------------------------------------------------------------------ queries

  /** The position of the first element satisfying `f` (a query's `.first()`). */
  function FirstIndex<T>(s: seq<T>, f: T -> bool): (r: Option<nat>)
    ensures r.Some? ==> r.value < |s| && f(s[r.value])
    ensures forall j :: 0 <= j < |s| && (r.None? || j < r.value) ==> !f(s[j])
  {
    if s == [] then None
    else if f(s[0]) then Some(0)
    else match FirstIndex(s[1..], f)
      case None => None
      case Some(k) => Some(k + 1)
  }

  /** The elements satisfying `f`, in order (a query's `.filter_by(...)`). */
  function Filter<T(!new)>(s: seq<T>, f: T -> bool): (r: seq<T>)
    ensures |r| <= |s|
    ensures forall x :: x in r <==> x in s && f(x)
  {
    if s == [] then []
    else if f(s[0]) then [s[0]] + Filter(s[1..], f)
    else Filter(s[1..], f)
  }

  /** `s` without its element at position `i` (`db.session.delete` of one row). */
  function RemoveAt<T>(s: seq<T>, i: nat): (r: seq<T>)
    requires i < |s|
    ensures |r| == |s| - 1
    ensures forall j :: 0 <= j < i ==> r[j] == s[j]
    ensures forall j :: i <= j < |r| ==> r[j] == s[j + 1]
  {
    s[..i] + s[i + 1..]
  }

  function HasId(id: int): Activity -> bool
  {
    (a: Activity) => a.id == id
  }

  function Named(name: string): Activity -> bool
  {
    (a: Activity) => a.name == name
  }

  function InActivity(aid: int): Participant -> bool
  {
    (p: Participant) => p.activityId == aid
  }

  function OutsideActivity(aid: int): Participant -> bool
  {
    (p: Participant) => p.activityId != aid
  }

  function JoinedBy(aid: int, uid: UserId): Participant -> bool
  {
    (p: Participant) => p.activityId == aid && p.userId == uid
  }

  function ListedAs(aid: int, userName: string): Participant -> bool
  {
    (p: Participant) => p.activityId == aid && p.userName == userName
  }

  function OtherThan(id: int): Activity -> bool
  {
    (a: Activity) => a.id != id
  }

  /** `Activity.query.get(id)`. */
  function ActivityById(acts: seq<Activity>, id: int): (r: Option<Activity>)
    ensures r.Some? ==> r.value in acts && r.value.id == id
    ensures r.None? <==> forall k :: 0 <= k < |acts| ==> acts[k].id != id
  {
    match FirstIndex(acts, HasId(id))
    case None => None
    case Some(k) => Some(acts[k])
  }

  /** `Activity.query.filter_by(name=name).first()`: the earliest-created activity with that name. */
  function FirstNamed(acts: seq<Activity>, name: string): (r: Option<Activity>)
    ensures r.Some? ==> r.value in acts && r.value.name == name
    ensures r.Some? ==> exists k :: 0 <= k < |acts| && acts[k] == r.value && forall j :: 0 <= j < k ==> acts[j].name != name
    ensures r.None? <==> forall k :: 0 <= k < |acts| ==> acts[k].name != name
  {
    match FirstIndex(acts, Named(name))
    case None => None
    case Some(k) => Some(acts[k])
  }

  /** `activity.participants`: the rows referring to activity `aid`, in insertion order. */
  function ParticipantsOf(ps: seq<Participant>, aid: int): (r: seq<Participant>)
    ensures forall p :: p in r <==> p in ps && p.activityId == aid
  {
    Filter(ps, InActivity(aid))
  }

  /** The number of rows that record user `uid` as joined to activity `aid`. */
  function JoinCount(ps: seq<Participant>, aid: int, uid: UserId): nat
  {
    |Filter(ps, JoinedBy(aid, uid))|
  }

  // ------------------------------------------------------ facts about queries

  /** Appending one element extends the filtered sequence by it exactly when it passes. */
  lemma {:induction false} FilterAppend<T(!new)>(s: seq<T>, x: T, f: T -> bool)
    ensures Filter(s + [x], f) == Filter(s, f) + (if f(x) then [x] else [])
  {
    if s == [] {
      assert [] + [x] == [x];
    } else {
      assert (s + [x])[1..] == s[1..] + [x];
      FilterAppend(s[1..], x, f);
    }
  }

  /** Where nothing in `s` passes but `x` does, the first match in `s + [x]` is `x`. */
  lemma FirstIndexAppend<T>(s: seq<T>, x: T, f: T -> bool)
    requires FirstIndex(s, f).None? && f(x)
    ensures FirstIndex(s + [x], f) == Some(|s|)
  {
    assert (s + [x])[|s|] == x;
  }

  /** Removing one element shortens the filtered sequence by one exactly when that element passes. */
  lemma {:induction false} FilterRemoveAt<T(!new)>(s: seq<T>, i: nat, f: T -> bool)
    requires i < |s|
    ensures |Filter(RemoveAt(s, i), f)| == |Filter(s, f)| - (if f(s[i]) then 1 else 0)
  {
    if i == 0 {
      assert RemoveAt(s, 0) == s[1..];
    } else {
      assert RemoveAt(s, i)[0] == s[0];
      assert RemoveAt(s, i)[1..] == RemoveAt(s[1..], i - 1);
      FilterRemoveAt(s[1..], i - 1, f);
    }
  }

  /** Removing position `i` keeps every element different from the one there. */
  lemma RemoveAtKeepsOthers<T>(s: seq<T>, i: nat)
    requires i < |s|
    ensures forall q :: q in s && q != s[i] ==> q in RemoveAt(s, i)
  {
    var r := RemoveAt(s, i);
    forall q | q in s && q != s[i] ensures q in r {
      var j :| 0 <= j < |s| && s[j] == q;
      if j < i {
        assert r[j] == q;
      } else {
        assert r[j - 1] == q;
      }
    }
  }

  /** Nothing passes `f` exactly when the filtered sequence is empty. */
  lemma FilterEmpty<T(!new)>(s: seq<T>, f: T -> bool)
    ensures Filter(s, f) == [] <==> FirstIndex(s, f).None?
  {
    var r := Filter(s, f);
    if r != [] {
      assert r[0] in s;
    }
    if FirstIndex(s, f).Some? {
      assert s[FirstIndex(s, f).value] in r;
    }
  }

  /** After removing an activity's rows, none of its rows is left. */
  lemma NoRowsLeft(ps: seq<Participant>, aid: int)
    ensures ParticipantsOf(Filter(ps, OutsideActivity(aid)), aid) == []
  {
  }

  /** The keys strictly increase along `s`: the table's primary-key order. */
  predicate Increasing<T>(s: seq<T>, key: T -> int)
  {
    forall i, j :: 0 <= i < j < |s| ==> key(s[i]) < key(s[j])
  }

  /** Filtering keeps the key order. */
  lemma {:induction false} FilterIncreasing<T(!new)>(s: seq<T>, f: T -> bool, key: T -> int)
    requires Increasing(s, key)
    ensures Increasing(Filter(s, f), key)
  {
    if s != [] {
      var rest := Filter(s[1..], f);
      FilterIncreasing(s[1..], f, key);
      if f(s[0]) {
        forall j | 0 <= j < |rest| ensures key(s[0]) < key(rest[j]) {
          assert rest[j] in s[1..];
        }
      }
    }
  }

  /** Removing one element keeps the key order. */
  lemma RemoveAtIncreasing<T>(s: seq<T>, i: nat, key: T -> int)
    requires i < |s| && Increasing(s, key)
    ensures Increasing(RemoveAt(s, i), key)
  {
    var r := RemoveAt(s, i);
    forall a, b | 0 <= a < b < |r| ensures key(r[a]) < key(r[b]) {
      var a' := if a < i then a else a + 1;
      var b' := if b < i then b else b + 1;
      assert r[a] == s[a'] && r[b] == s[b'];
    }
  }

  /** Appending an element whose key exceeds every key keeps the key order. */
  lemma AppendIncreasing<T>(s: seq<T>, x: T, key: T -> int)
    requires Increasing(s, key)
    requires forall i :: 0 <= i < |s| ==> key(s[i]) < key(x)
    ensures Increasing(s + [x], key)
  {
    var r := s + [x];
    forall a, b | 0 <= a < b < |r| ensures key(r[a]) < key(r[b]) {
      assert r[a] == s[a];
    }
  }

  // ---------------------------------------------------------------- invariant

  function ActivityKey(a: Activity): int { a.id }

  function ParticipantKey(p: Participant): int { p.id }

  /** Activity ids are positive, below the next id to hand out, and increase along the table. */
  predicate ActivityIdsValid(w: World)
  {
    && 0 < w.nextActivityId
    && Increasing(w.activities, ActivityKey)
    && (forall i :: 0 <= i < |w.activities| ==> 0 < w.activities[i].id < w.nextActivityId)
  }

  /** Participant ids likewise. */
  predicate ParticipantIdsValid(w: World)
  {
    && 0 < w.nextParticipantId
    && Increasing(w.participants, ParticipantKey)
    && (forall i :: 0 <= i < |w.participants| ==> 0 < w.participants[i].id < w.nextParticipantId)
  }

  /** Every participant row refers to a live activity: no orphans. */
  predicate NoOrphans(w: World)
  {
    forall i :: 0 <= i < |w.participants| ==> ActivityById(w.activities, w.participants[i].activityId).Some?
  }

  /** Every stored row fits its columns. */
  predicate RowsFit(w: World)
  {
    && (forall i :: 0 <= i < |w.activities| ==> ActivityFits(w.activities[i]))
    && (forall i :: 0 <= i < |w.participants| ==> ParticipantFits(w.participants[i]))
  }

  /** Every pending creation is at the date/time step with a non-empty name. */
  predicate StatesWellFormed(w: World)
  {
    forall u :: u in w.states ==> w.states[u].step == DatetimeStep && w.states[u].name != []
  }

  /** The invariant every handler keeps. */
  predicate Valid(w: World)
  {
    ActivityIdsValid(w) && ParticipantIdsValid(w) && NoOrphans(w) && RowsFit(w) && StatesWellFormed(w)
  }

  /** Recording a named pending creation keeps the invariant. */
  lemma StartCreationValid(w: World, user: UserId, name: string)
    requires Valid(w) && name != []
    ensures Valid(w.(states := w.states[user := Entry(DatetimeStep, name)]))
  {
  }

  /** Fresh tables satisfy the invariant. */
  lemma EmptyValid()
    ensures Valid(Empty)
  {
  }

  /** Primary keys are unique, so an activity found by id is the only one with that id. */
  lemma ActivityIdUnique(w: World, i: nat, j: nat)
    requires ActivityIdsValid(w)
    requires i < |w.activities| && j < |w.activities| && i != j
    ensures w.activities[i].id != w.activities[j].id
  {
    if i < j {
      assert ActivityKey(w.activities[i]) < ActivityKey(w.activities[j]);
    } else if j < i {
      assert ActivityKey(w.activities[j]) < ActivityKey(w.activities[i]);
    }
  }

  // ------------------------------------------------- steps that keep the invariant

  /** An id that some activity has is found by `ActivityById`, in any table holding that activity. */
  lemma FoundIn(acts: seq<Activity>, a: Activity)
    requires a in acts
    ensures ActivityById(acts, a.id).Some?
  {
    var k :| 0 <= k < |acts| && acts[k] == a;
  }

  /** Adding a fitting participant row for a live activity, under the next id, keeps the invariant. */
  lemma AddParticipantValid(w: World, row: Participant)
    requires Valid(w)
    requires row.id == w.nextParticipantId && ParticipantFits(row)
    requires ActivityById(w.activities, row.activityId).Some?
    ensures Valid(w.(participants := w.participants + [row], nextParticipantId := w.nextParticipantId + 1))
  {
    AppendIncreasing(w.participants, row, ParticipantKey);
  }

  /** Removing one participant row keeps the invariant. */
  lemma RemoveParticipantValid(w: World, i: nat)
    requires Valid(w) && i < |w.participants|
    ensures Valid(w.(participants := RemoveAt(w.participants, i)))
  {
    RemoveAtIncreasing(w.participants, i, ParticipantKey);
  }

  /** Adding a fitting activity under the next id, and dropping one pending creation, keeps the invariant. */
  lemma AddActivityValid(w: World, act: Activity, user: UserId)
    requires Valid(w)
    requires act.id == w.nextActivityId && ActivityFits(act)
    ensures Valid(w.(activities := w.activities + [act], nextActivityId := w.nextActivityId + 1, states := w.states - {user}))
  {
    var w' := w.(activities := w.activities + [act], nextActivityId := w.nextActivityId + 1, states := w.states - {user});
    AppendIncreasing(w.activities, act, ActivityKey);
    forall i | 0 <= i < |w'.participants| ensures ActivityById(w'.activities, w'.participants[i].activityId).Some? {
      var a := ActivityById(w.activities, w.participants[i].activityId).value;
      FoundIn(w'.activities, a);
    }
  }

  /** Deleting an activity together with its participant rows keeps the invariant. */
  lemma DeleteActivityValid(w: World, aid: int)
    requires Valid(w)
    ensures Valid(w.(participants := Filter(w.participants, OutsideActivity(aid)),
                     activities := Filter(w.activities, OtherThan(aid))))
  {
    var w' := w.(participants := Filter(w.participants, OutsideActivity(aid)),
                 activities := Filter(w.activities, OtherThan(aid)));
    FilterIncreasing(w.activities, OtherThan(aid), ActivityKey);
    FilterIncreasing(w.participants, OutsideActivity(aid), ParticipantKey);
    forall i | 0 <= i < |w'.activities| ensures 0 < w'.activities[i].id < w'.nextActivityId && ActivityFits(w'.activities[i]) {
      assert w'.activities[i] in w.activities;
    }
    forall i | 0 <= i < |w'.participants|
      ensures 0 < w'.participants[i].id < w'.nextParticipantId && ParticipantFits(w'.participants[i])
      ensures ActivityById(w'.activities, w'.participants[i].activityId).Some?
    {
      var p := w'.participants[i];
      assert p in w.participants && p.activityId != aid;
      var j :| 0 <= j < |w.participants| && w.participants[j] == p;
      var a := ActivityById(w.activities, p.activityId).value;
      FoundIn(w'.activities, a);
    }
  }
}
