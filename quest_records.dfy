/**
 * The quest records of `Quest_Data` (Cogs/quest.py) and the list and map
 * transformations its MongoDB updates perform on them. A guild document's
 * `members` object is an ordered sequence of members with distinct user ids;
 * each member holds the ordered list of its quests.
 */
module QuestRecords {
  import opened Wrappers

  /** A keyword argument of `validate_input`: Python's None, a string or an integer. */
  datatype Value = Null | Str(s: string) | Int(i: int)

  /** `value is None or value == ""`; every integer, 0 included, is accepted. */
  predicate Rejected(v: Value) {
    v == Null || v == Str([])
  }

  /**
   * `validate_input(**kwargs)`: None when every argument is accepted,
   * otherwise the key of the first rejected one, named in its ValueError.
   */
  function ValidateInput(kwargs: seq<(string, Value)>): (r: Option<string>)
    ensures r.None? <==> forall k :: 0 <= k < |kwargs| ==> !Rejected(kwargs[k].1)
    ensures r.Some? ==> exists k :: 0 <= k < |kwargs| && kwargs[k].0 == r.value && Rejected(kwargs[k].1) &&
                                    forall j :: 0 <= j < k ==> !Rejected(kwargs[j].1)
  {
    if kwargs == [] then None
    else if Rejected(kwargs[0].1) then Some(kwargs[0].0)
    else
      var r := ValidateInput(kwargs[1..]);
      assert forall k :: 1 <= k < |kwargs| ==> kwargs[k] == kwargs[1..][k - 1];
      r
  }

  /**
   * One quest document. `questId` is None when the document has no
   * `quest_id` key; the other fields have the types `create_new_quest_for_all`
   * gives them.
   */
  datatype Quest = Quest(
    questId: Option<int>,
    action: string,
    via: string,
    channelId: int,
    times: int,
    content: string,
    progress: int)

  /** A member entry `members[userId] = {'quests': quests}`. */
  datatype Member = Member(userId: string, quests: seq<Quest>)

  /** The keyword arguments `insert_quest` validates: the keys of the quest document, in order. */
  function QuestKwargs(q: Quest): seq<(string, Value)> {
    (if q.questId.Some? then [("quest_id", Int(q.questId.value))] else []) +
    [("action", Str(q.action)), ("method", Str(q.via)), ("channel_id", Int(q.channelId)),
     ("times", Int(q.times)), ("content", Str(q.content)), ("progress", Int(q.progress))]
  }

  /** A quest passes validation exactly when its three strings are not empty; integers never fail. */
  lemma {:induction false} QuestValidation(q: Quest)
    ensures ValidateInput(QuestKwargs(q)).None? <==> q.action != [] && q.via != [] && q.content != []
  {
    var kw := QuestKwargs(q);
    var o := if q.questId.Some? then 1 else 0;
    assert kw[o] == ("action", Str(q.action)) && kw[o + 1] == ("method", Str(q.via));
    assert kw[o + 4] == ("content", Str(q.content));
  }

  /** The keyword arguments `create_new_quest_for_all` validates, in order. */
  function CreateKwargs(g: string, action: string, via: string, channelId: int, times: int, content: string)
    : seq<(string, Value)>
  {
    [("guild_id", Str(g)), ("action", Str(action)), ("method", Str(via)),
     ("channel_id", Int(channelId)), ("times", Int(times)), ("content", Str(content))]
  }

  /** The creation goes ahead exactly when the guild id and the three strings are not empty. */
  lemma CreateValidation(g: string, action: string, via: string, channelId: int, times: int, content: string)
    ensures ValidateInput(CreateKwargs(g, action, via, channelId, times, content)).None? <==>
      g != [] && action != [] && via != [] && content != []
  {
    var kw := CreateKwargs(g, action, via, channelId, times, content);
    assert kw[0].1 == Str(g) && kw[1].1 == Str(action) && kw[2].1 == Str(via) && kw[5].1 == Str(content);
  }

  // ---------------------------------------------------------------------------
  // Members of one guild

  /** Python dict keys: no two members share a user id. */
  ghost predicate UniqueUsers(ms: seq<Member>) {
    forall i, j :: 0 <= i < j < |ms| ==> ms[i].userId != ms[j].userId
  }

  /** `list(members_data.keys())`. */
  function UserIds(ms: seq<Member>): (r: seq<string>)
    ensures |r| == |ms|
    ensures forall k :: 0 <= k < |ms| ==> r[k] == ms[k].userId
  {
    seq(|ms|, k requires 0 <= k < |ms| => ms[k].userId)
  }

  /**
   * The listed ids are exactly the users the guild knows (those `IndexOfUser`
   * finds), and, since dict keys are distinct, none is listed twice.
   */
  lemma UserIdsAreMembers(ms: seq<Member>)
    ensures forall u :: u in UserIds(ms) <==> IndexOfUser(ms, u) != -1
    ensures UniqueUsers(ms) ==> forall i, j :: 0 <= i < j < |ms| ==> UserIds(ms)[i] != UserIds(ms)[j]
  {
    forall u | IndexOfUser(ms, u) != -1 ensures u in UserIds(ms) {
      assert UserIds(ms)[IndexOfUser(ms, u)] == u;
    }
  }

  /** Position of the member with user id u, or -1. */
  function IndexOfUser(ms: seq<Member>, u: string): (k: int)
    ensures -1 <= k < |ms|
    ensures k >= 0 ==> ms[k].userId == u && forall j :: 0 <= j < k ==> ms[j].userId != u
    ensures k == -1 <==> forall j :: 0 <= j < |ms| ==> ms[j].userId != u
  {
    if ms == [] then -1
    else if ms[0].userId == u then 0
    else
      var k := IndexOfUser(ms[1..], u);
      assert forall j :: 1 <= j < |ms| ==> ms[j] == ms[1..][j - 1];
      if k == -1 then -1 else k + 1
  }

  /** `members_data.get(user_id, {}).get('quests', [])`. */
  function QuestsOf(ms: seq<Member>, u: string): seq<Quest> {
    var k := IndexOfUser(ms, u);
    if k == -1 then [] else ms[k].quests
  }

  /**
   * `$set: {'members.<u>.quests': qs}`, and the dict assignment
   * `members_data[u] = {'quests': qs}`: the member keeps its place, and a new
   * member goes to the end.
   */
  function ReplaceQuests(ms: seq<Member>, u: string, qs: seq<Quest>): seq<Member> {
    var k := IndexOfUser(ms, u);
    if k == -1 then ms + [Member(u, qs)] else ms[k := Member(u, qs)]
  }

  /**
   * After the replacement the user holds exactly `qs`, every other user
   * holds what it held, the user ids are the old ones (plus u at the end if
   * u was missing), and they stay distinct.
   */
  lemma ReplaceQuestsFacts(ms: seq<Member>, u: string, qs: seq<Quest>)
    requires UniqueUsers(ms)
    ensures IndexOfUser(ReplaceQuests(ms, u, qs), u) != -1
    ensures QuestsOf(ReplaceQuests(ms, u, qs), u) == qs
    ensures forall v :: v != u ==> QuestsOf(ReplaceQuests(ms, u, qs), v) == QuestsOf(ms, v)
    ensures UserIds(ReplaceQuests(ms, u, qs)) ==
      if IndexOfUser(ms, u) == -1 then UserIds(ms) + [u] else UserIds(ms)
    ensures UniqueUsers(ReplaceQuests(ms, u, qs))
  {
    if IndexOfUser(ms, u) == -1 {
      AppendFacts(ms, Member(u, qs));
    } else {
      SetFacts(ms, IndexOfUser(ms, u), Member(u, qs));
    }
  }

  /** Appending a member with a new id: the old members keep their positions and the new one is last. */
  lemma AppendFacts(ms: seq<Member>, m: Member)
    requires UniqueUsers(ms) && IndexOfUser(ms, m.userId) == -1
    ensures IndexOfUser(ms + [m], m.userId) == |ms|
    ensures forall v :: v != m.userId ==> IndexOfUser(ms + [m], v) == IndexOfUser(ms, v)
    ensures forall v :: v != m.userId ==> QuestsOf(ms + [m], v) == QuestsOf(ms, v)
    ensures UserIds(ms + [m]) == UserIds(ms) + [m.userId]
    ensures UniqueUsers(ms + [m])
  {
    var r := ms + [m];
    forall v ensures IndexOfUser(r, v) == if v == m.userId then |ms| else IndexOfUser(ms, v) {
      AppendIndex(ms, m, v);
    }
    forall v | v != m.userId ensures QuestsOf(r, v) == QuestsOf(ms, v) {
      var k := IndexOfUser(ms, v);
      if k != -1 {
        assert r[k] == ms[k];
      }
    }
    AppendUnique(ms, m);
    AppendIds(ms, m);
  }

  /** Appending a member appends its id. */
  lemma AppendIds(ms: seq<Member>, m: Member)
    ensures UserIds(ms + [m]) == UserIds(ms) + [m.userId]
  {
    var r := ms + [m];
    assert forall k :: 0 <= k < |ms| ==> r[k] == ms[k];
    assert UserIds(r) == UserIds(ms) + [m.userId];
  }

  /** Appending a member with a new id keeps the ids distinct. */
  lemma AppendUnique(ms: seq<Member>, m: Member)
    requires UniqueUsers(ms) && IndexOfUser(ms, m.userId) == -1
    ensures UniqueUsers(ms + [m])
  {
    var r := ms + [m];
    forall i, j | 0 <= i < j < |r| ensures r[i].userId != r[j].userId {
      assert r[i] == ms[i];
      if j < |ms| {
        assert r[j] == ms[j];
      }
    }
  }

  /** The position of an id after a member is appended. */
  lemma AppendIndex(ms: seq<Member>, m: Member, v: string)
    requires IndexOfUser(ms, m.userId) == -1
    ensures IndexOfUser(ms + [m], v) == if v == m.userId then |ms| else IndexOfUser(ms, v)
  {
    var r := ms + [m];
    var k := IndexOfUser(ms, v);
    if k != -1 {
      assert r[k] == ms[k];
    } else {
      assert forall j :: 0 <= j < |ms| ==> r[j] == ms[j];
      assert r[|ms|] == m;
    }
  }

  /** Overwriting member k by a member with the same id changes no position. */
  lemma SetFacts(ms: seq<Member>, k: int, m: Member)
    requires UniqueUsers(ms) && 0 <= k < |ms| && ms[k].userId == m.userId
    ensures forall v :: IndexOfUser(ms[k := m], v) == IndexOfUser(ms, v)
    ensures QuestsOf(ms[k := m], m.userId) == m.quests
    ensures forall v :: v != m.userId ==> QuestsOf(ms[k := m], v) == QuestsOf(ms, v)
    ensures UserIds(ms[k := m]) == UserIds(ms)
    ensures UniqueUsers(ms[k := m])
  {
    var r := ms[k := m];
    forall v ensures IndexOfUser(r, v) == IndexOfUser(ms, v) {
      SetIndex(ms, k, m, v);
    }
    IndexOfUnique(ms, k);
    assert UserIds(r) == UserIds(ms);
  }

  /** Overwriting a member by one with the same id moves no id. */
  lemma SetIndex(ms: seq<Member>, k: int, m: Member, v: string)
    requires 0 <= k < |ms| && ms[k].userId == m.userId
    ensures IndexOfUser(ms[k := m], v) == IndexOfUser(ms, v)
  {
    var r := ms[k := m];
    assert forall j :: 0 <= j < |r| ==> r[j].userId == ms[j].userId;
    SameIdsSameIndex(r, ms, v);
  }

  /** The position of an id depends only on the sequence of ids. */
  lemma SameIdsSameIndex(a: seq<Member>, b: seq<Member>, v: string)
    requires |a| == |b| && forall j :: 0 <= j < |a| ==> a[j].userId == b[j].userId
    ensures IndexOfUser(a, v) == IndexOfUser(b, v)
  {
    var ka, kb := IndexOfUser(a, v), IndexOfUser(b, v);
    if ka != -1 {
      assert b[ka].userId == v;
    }
    if kb != -1 {
      assert a[kb].userId == v;
    }
  }

  /** With distinct user ids, a member's own id leads back to its position. */
  lemma IndexOfUnique(ms: seq<Member>, i: int)
    requires UniqueUsers(ms) && 0 <= i < |ms|
    ensures IndexOfUser(ms, ms[i].userId) == i
  {
    var k := IndexOfUser(ms, ms[i].userId);
    assert k != -1 by {
      assert ms[i].userId == ms[i].userId;
    }
  }

  /** Replacing a present member's quests twice keeps only the second list. */
  lemma ReplaceTwice(ms: seq<Member>, u: string, a: seq<Quest>, b: seq<Quest>)
    requires IndexOfUser(ms, u) != -1
    ensures ReplaceQuests(ReplaceQuests(ms, u, a), u, b) == ReplaceQuests(ms, u, b)
  {
    var k := IndexOfUser(ms, u);
    var r := ms[k := Member(u, a)];
    SetIndex(ms, k, Member(u, a), u);
    assert r[k := Member(u, b)] == ms[k := Member(u, b)];
  }

  /** Writing back the list a present member already holds changes nothing. */
  lemma ReplaceSame(ms: seq<Member>, u: string)
    requires IndexOfUser(ms, u) != -1
    ensures ReplaceQuests(ms, u, QuestsOf(ms, u)) == ms
  {
  }

  lemma KeyedQuestsOf(ms: seq<Member>, u: string)
    requires KeyedMembers(ms)
    ensures Keyed(QuestsOf(ms, u))
  {
    var k := IndexOfUser(ms, u);
    if k != -1 {
      assert ms[k] in ms;
    }
  }

  /** Replacing one member's list by a keyed list keeps every member keyed. */
  lemma ReplaceKeepsKeyed(ms: seq<Member>, u: string, qs: seq<Quest>)
    requires KeyedMembers(ms) && Keyed(qs)
    ensures KeyedMembers(ReplaceQuests(ms, u, qs))
  {
    var r := ReplaceQuests(ms, u, qs);
    forall m | m in r ensures Keyed(m.quests) {
      var j :| 0 <= j < |r| && r[j] == m;
      if j < |ms| && r[j] == ms[j] {
        assert ms[j] in ms;
      }
    }
  }

  // ---------------------------------------------------------------------------
  // Quest lists of one member

  /** Every quest has an id, and no two quests of the member share one. */
  ghost predicate Keyed(qs: seq<Quest>) {
    (forall q :: q in qs ==> q.questId.Some?) &&
    forall i, j :: 0 <= i < j < |qs| ==> qs[i].questId != qs[j].questId
  }

  ghost predicate KeyedMembers(ms: seq<Member>) {
    forall m :: m in ms ==> Keyed(m.quests)
  }

  /** Some quest carries this id (`quest.get('quest_id') == quest_id`, a missing id never equals). */
  predicate HasQuest(qs: seq<Quest>, id: int) {
    exists q :: q in qs && q.questId == Some(id)
  }

  /** `quest.get('quest_id', 0)`. */
  function IdOrZero(q: Quest): int {
    if q.questId.Some? then q.questId.value else 0
  }

  /**
   * `max([quest.get('quest_id', 0) for quest in quests], default=0)`: the
   * largest id, a missing id counting as 0, and 0 for no quests at all.
   */
  function LatestQuestId(qs: seq<Quest>): (r: int)
    ensures forall q :: q in qs ==> IdOrZero(q) <= r
    ensures qs == [] ==> r == 0
    ensures qs != [] ==> exists q :: q in qs && IdOrZero(q) == r
    ensures !HasQuest(qs, r + 1)
  {
    if qs == [] then 0
    else if |qs| == 1 then IdOrZero(qs[0])
    else
      var rest := LatestQuestId(qs[1..]);
      assert forall q :: q in qs ==> q == qs[0] || q in qs[1..];
      if IdOrZero(qs[0]) >= rest then IdOrZero(qs[0]) else rest
  }

  /** `[quest for quest in quests if quest.get('quest_id') != quest_id]`. */
  function RemoveAllWithId(qs: seq<Quest>, id: int): seq<Quest> {
    if qs == [] then []
    else if qs[0].questId == Some(id) then RemoveAllWithId(qs[1..], id)
    else [qs[0]] + RemoveAllWithId(qs[1..], id)
  }

  /**
   * The filter removes every quest with the id and keeps every other quest;
   * it changes nothing when no quest has the id, and applying it twice is
   * applying it once.
   */
  lemma {:induction false} RemoveAllWithIdFacts(qs: seq<Quest>, id: int)
    ensures !HasQuest(RemoveAllWithId(qs, id), id)
    ensures forall q: Quest :: q.questId != Some(id) ==> (q in RemoveAllWithId(qs, id) <==> q in qs)
    ensures !HasQuest(qs, id) ==> RemoveAllWithId(qs, id) == qs
    ensures RemoveAllWithId(RemoveAllWithId(qs, id), id) == RemoveAllWithId(qs, id)
    ensures |RemoveAllWithId(qs, id)| <= |qs|
  {
    if qs != [] {
      RemoveAllWithIdFacts(qs[1..], id);
      assert forall q :: q in qs <==> q == qs[0] || q in qs[1..];
      if !HasQuest(qs, id) {
        assert !HasQuest(qs[1..], id);
        assert [qs[0]] + qs[1..] == qs;
      }
    }
  }

  /**
   * The filter works element by element, so it keeps the order of what it
   * keeps: filtering a concatenation is concatenating the filtered parts.
   */
  lemma {:induction false} RemoveAllWithIdConcat(a: seq<Quest>, b: seq<Quest>, id: int)
    ensures RemoveAllWithId(a + b, id) == RemoveAllWithId(a, id) + RemoveAllWithId(b, id)
    decreases |a|
  {
    if a == [] {
      assert a + b == b;
    } else {
      var ab := a + b;
      assert ab[0] == a[0] && ab[1..] == a[1..] + b;
      RemoveAllWithIdConcat(a[1..], b, id);
      var x, y := RemoveAllWithId(a[1..], id), RemoveAllWithId(b, id);
      if a[0].questId != Some(id) {
        assert RemoveAllWithId(ab, id) == [a[0]] + (x + y);
        assert RemoveAllWithId(a, id) == [a[0]] + x;
        assert [a[0]] + (x + y) == ([a[0]] + x) + y;
      }
    }
  }

  /** A single quest is dropped exactly when it carries the id. */
  lemma RemoveAllWithIdSingle(q: Quest, id: int)
    ensures RemoveAllWithId([q], id) == if q.questId == Some(id) then [] else [q]
  {
    assert [q][1..] == [];
  }

  /**
   * The filter keeps every other quest as often as it occurred and drops
   * every copy of a quest with the id.
   */
  lemma {:induction false} RemoveAllWithIdCounts(qs: seq<Quest>, id: int)
    ensures forall q: Quest ::
      multiset(RemoveAllWithId(qs, id))[q] == (if q.questId == Some(id) then 0 else multiset(qs)[q])
  {
    if qs != [] {
      RemoveAllWithIdCounts(qs[1..], id);
      assert qs == [qs[0]] + qs[1..];
      assert multiset(qs) == multiset{qs[0]} + multiset(qs[1..]);
    }
  }

  /** The filter keeps the kept quests in their order: it is a subsequence, so Keyed survives. */
  lemma {:induction false} RemoveAllKeepsKeyed(qs: seq<Quest>, id: int)
    requires Keyed(qs)
    ensures Keyed(RemoveAllWithId(qs, id))
  {
    if qs != [] {
      var t := qs[1..];
      KeyedTail(qs);
      RemoveAllKeepsKeyed(t, id);
      if qs[0].questId != Some(id) {
        var r := RemoveAllWithId(t, id);
        RemoveAllWithIdFacts(t, id);
        forall x | x in r ensures x.questId != qs[0].questId {
          var k :| 0 <= k < |t| && t[k] == x;
          assert qs[k + 1] == x;
        }
        assert qs[0] in qs;
        KeyedCons(qs[0], r);
      }
    }
  }

  /** A quest with an id none of a keyed list carries can go in front of it. */
  lemma KeyedCons(q: Quest, qs: seq<Quest>)
    requires Keyed(qs) && q.questId.Some?
    requires forall x :: x in qs ==> x.questId != q.questId
    ensures Keyed([q] + qs)
  {
    var r := [q] + qs;
    forall i, j | 0 <= i < j < |r| ensures r[i].questId != r[j].questId {
      assert r[j] == qs[j - 1];
      if i > 0 {
        assert r[i] == qs[i - 1];
      } else {
        assert qs[j - 1] in qs;
      }
    }
  }

  /** Position of the first quest with the id, or -1. */
  function FirstWithId(qs: seq<Quest>, id: int): (k: int)
    ensures -1 <= k < |qs|
    ensures k >= 0 ==> qs[k].questId == Some(id) && forall j :: 0 <= j < k ==> qs[j].questId != Some(id)
    ensures k == -1 <==> !HasQuest(qs, id)
  {
    if qs == [] then -1
    else if qs[0].questId == Some(id) then 0
    else
      var k := FirstWithId(qs[1..], id);
      assert forall j :: 1 <= j < |qs| ==> qs[j] == qs[1..][j - 1];
      assert forall q :: q in qs ==> q == qs[0] || q in qs[1..];
      if k == -1 then -1 else k + 1
  }

  /** The loop with `user_quests.remove(quest); break`: the first quest with the id goes, nothing else. */
  function RemoveFirstWithId(qs: seq<Quest>, id: int): seq<Quest> {
    var k := FirstWithId(qs, id);
    if k == -1 then qs else qs[..k] + qs[k + 1..]
  }

  /**
   * On a member whose ids are distinct, removing the first quest with the id
   * (`delete_quest_for_user`) is the same as removing all of them (`delete_quest`).
   */
  lemma {:induction false} RemoveFirstIsRemoveAllWhenKeyed(qs: seq<Quest>, id: int)
    requires Keyed(qs)
    ensures RemoveFirstWithId(qs, id) == RemoveAllWithId(qs, id)
  {
    if qs != [] {
      var t := qs[1..];
      KeyedTail(qs);
      if qs[0].questId == Some(id) {
        assert !HasQuest(t, id) by {
          forall q | q in t ensures q.questId != Some(id) {
            var j :| 0 <= j < |t| && t[j] == q;
            assert qs[j + 1] == q;
          }
        }
        RemoveAllWithIdFacts(t, id);
        assert RemoveFirstWithId(qs, id) == t;
      } else {
        RemoveFirstIsRemoveAllWhenKeyed(t, id);
        assert RemoveAllWithId(qs, id) == [qs[0]] + RemoveFirstWithId(t, id);
        RemoveFirstOfTail(qs, id);
      }
    }
  }

  lemma KeyedTail(qs: seq<Quest>)
    requires Keyed(qs) && qs != []
    ensures Keyed(qs[1..])
  {
    var t := qs[1..];
    forall i, j | 0 <= i < j < |t| ensures t[i].questId != t[j].questId {
      assert t[i] == qs[i + 1] && t[j] == qs[j + 1];
    }
  }

  /** Past a head without the id, removing the first match works on the tail. */
  lemma RemoveFirstOfTail(qs: seq<Quest>, id: int)
    requires qs != [] && qs[0].questId != Some(id)
    ensures RemoveFirstWithId(qs, id) == [qs[0]] + RemoveFirstWithId(qs[1..], id)
  {
    var t := qs[1..];
    var k := FirstWithId(t, id);
    assert FirstWithId(qs, id) == if k == -1 then -1 else k + 1;
    if k == -1 {
      assert qs == [qs[0]] + t;
    } else {
      DropAfterHead(qs, k);
    }
  }

  /** Dropping element k + 1 of a sequence is keeping its head and dropping element k of its tail. */
  lemma DropAfterHead<T>(s: seq<T>, k: int)
    requires 0 <= k < |s| - 1
    ensures s[..k + 1] + s[k + 2..] == [s[0]] + (s[1..][..k] + s[1..][k + 1..])
  {
    assert s[..k + 1] == [s[0]] + s[1..][..k];
    assert s[k + 2..] == s[1..][k + 1..];
  }

  /** Removing the first quest with the id from one member keeps the guild keyed. */
  lemma RemoveFirstKeepsKeyed(ms: seq<Member>, u: string, id: int)
    requires UniqueUsers(ms) && KeyedMembers(ms)
    ensures KeyedMembers(ReplaceQuests(ms, u, RemoveFirstWithId(QuestsOf(ms, u), id)))
  {
    var qs := QuestsOf(ms, u);
    KeyedQuestsOf(ms, u);
    RemoveFirstIsRemoveAllWhenKeyed(qs, id);
    RemoveAllKeepsKeyed(qs, id);
    ReplaceKeepsKeyed(ms, u, RemoveFirstWithId(qs, id));
  }

  /** The positional `$set: {'members.<u>.quests.$.progress': p}`: the first quest with the id gets progress p. */
  function SetProgressOfFirst(qs: seq<Quest>, id: int, p: int): seq<Quest> {
    var k := FirstWithId(qs, id);
    if k == -1 then qs else qs[k := qs[k].(progress := p)]
  }

  /** The progress update keeps every id where it was, so a keyed list stays keyed. */
  lemma SetProgressKeepsKeyed(qs: seq<Quest>, id: int, p: int)
    requires Keyed(qs)
    ensures Keyed(SetProgressOfFirst(qs, id, p))
  {
    var r := SetProgressOfFirst(qs, id, p);
    assert forall j :: 0 <= j < |qs| ==> r[j].questId == qs[j].questId;
    forall x | x in r ensures x.questId.Some? {
      var j :| 0 <= j < |r| && r[j] == x;
      assert qs[j] in qs;
    }
  }

  /**
   * When the quests before `rest` all lack the id and `rest` starts with it,
   * the first quest with the id is the head of `rest`.
   */
  lemma FirstWithIdAfter(front: seq<Quest>, rest: seq<Quest>, id: int)
    requires forall x :: x in front ==> x.questId != Some(id)
    requires rest != [] && rest[0].questId == Some(id)
    ensures FirstWithId(front + rest, id) == |front|
  {
    var l := front + rest;
    var k := FirstWithId(l, id);
    assert l[|front|] == rest[0];
    assert forall j :: 0 <= j < |front| ==> l[j] == front[j] && front[j] in front;
  }

  // ---------------------------------------------------------------------------
  // The guild-level queries and updates

  /** Whether the member list holds a quest with the id; `any` stops at the first match. */
  function AnyHasId(qs: seq<Quest>, id: int): (r: Result<bool>)
    ensures (forall q :: q in qs ==> q.questId.Some?) ==> r == Success(HasQuest(qs, id))
    ensures r.Failure? ==> exists q :: q in qs && q.questId.None?
  {
    if qs == [] then Success(false)
    else if qs[0].questId.None? then Failure("KeyError")
    else if qs[0].questId.value == id then Success(true)
    else
      assert forall q :: q in qs ==> q == qs[0] || q in qs[1..];
      AnyHasId(qs[1..], id)
  }

  /**
   * `find_users_with_quest` on one guild: the members holding the quest, in
   * member order; `quest['quest_id']` raises KeyError at a quest without an
   * id that is reached before a match.
   */
  function UsersWithQuest(ms: seq<Member>, id: int): Result<seq<string>> {
    if ms == [] then Success([])
    else
      match AnyHasId(ms[0].quests, id)
      case Failure(e) => Failure(e)
      case Success(holds) =>
        match UsersWithQuest(ms[1..], id)
        case Failure(e) => Failure(e)
        case Success(rest) => Success(if holds then [ms[0].userId] + rest else rest)
  }

  /** The users that hold a quest with the id, in member order. */
  function Holders(ms: seq<Member>, id: int): (r: seq<string>)
    ensures forall u :: u in r <==> exists m :: m in ms && m.userId == u && HasQuest(m.quests, id)
  {
    if ms == [] then []
    else
      var rest := Holders(ms[1..], id);
      assert forall m :: m in ms <==> m == ms[0] || m in ms[1..];
      if HasQuest(ms[0].quests, id) then [ms[0].userId] + rest else rest
  }

  /** When every quest has an id the query never raises and returns exactly the holders. */
  lemma {:induction false} UsersWithQuestAreHolders(ms: seq<Member>, id: int)
    ensures (forall m, q :: m in ms && q in m.quests ==> q.questId.Some?) ==>
      UsersWithQuest(ms, id) == Success(Holders(ms, id))
  {
    if ms != [] && forall m, q :: m in ms && q in m.quests ==> q.questId.Some? {
      assert forall m :: m in ms[1..] ==> m in ms;
      UsersWithQuestAreHolders(ms[1..], id);
    }
  }

  /**
   * The guard `members.<u>.quests` has no element with this `quest_id`: only
   * then is the quest pushed (at the end of the member's list, or as a new
   * member). Otherwise the upsert adds a second guild document that later
   * lookups never see, so the visible members stay as they were.
   */
  function InsertIntoGuild(ms: seq<Member>, u: string, q: Quest): seq<Member>
    requires q.questId.Some?
  {
    if HasQuest(QuestsOf(ms, u), q.questId.value) then ms
    else ReplaceQuests(ms, u, QuestsOf(ms, u) + [q])
  }

  /** Inserting the same quest twice leaves the member list as one insertion does. */
  lemma {:induction false} InsertIntoGuildIdempotent(ms: seq<Member>, u: string, q: Quest)
    requires q.questId.Some? && UniqueUsers(ms)
    ensures InsertIntoGuild(InsertIntoGuild(ms, u, q), u, q) == InsertIntoGuild(ms, u, q)
  {
    if !HasQuest(QuestsOf(ms, u), q.questId.value) {
      ReplaceQuestsFacts(ms, u, QuestsOf(ms, u) + [q]);
      var qs := QuestsOf(InsertIntoGuild(ms, u, q), u);
      assert qs[|qs| - 1] == q;
    }
  }

  /**
   * The insertion appends the quest to that user's list unless the list
   * already has its id, leaves every other member as it was, and keeps a
   * keyed member keyed.
   */
  lemma {:induction false} InsertIntoGuildFacts(ms: seq<Member>, u: string, q: Quest)
    requires q.questId.Some? && UniqueUsers(ms)
    ensures UniqueUsers(InsertIntoGuild(ms, u, q))
    ensures QuestsOf(InsertIntoGuild(ms, u, q), u) ==
      if HasQuest(QuestsOf(ms, u), q.questId.value) then QuestsOf(ms, u) else QuestsOf(ms, u) + [q]
    ensures forall v :: v != u ==> QuestsOf(InsertIntoGuild(ms, u, q), v) == QuestsOf(ms, v)
    ensures Keyed(QuestsOf(ms, u)) ==> Keyed(QuestsOf(InsertIntoGuild(ms, u, q), u))
  {
    var qs := QuestsOf(ms, u);
    if !HasQuest(qs, q.questId.value) {
      ReplaceQuestsFacts(ms, u, qs + [q]);
      if Keyed(qs) {
        KeyedSnoc(qs, q);
      }
    }
  }

  /** A quest with an id that a keyed list lacks can go at its end. */
  lemma KeyedSnoc(qs: seq<Quest>, q: Quest)
    requires Keyed(qs) && q.questId.Some? && !HasQuest(qs, q.questId.value)
    ensures Keyed(qs + [q])
  {
    var r := qs + [q];
    forall x | x in r ensures x.questId.Some? {
      assert x in qs || x == q;
    }
    forall i, j | 0 <= i < j < |r| ensures r[i].questId != r[j].questId {
      assert r[i] == qs[i] && r[i] in qs;
      if j < |qs| {
        assert r[j] == qs[j];
      }
    }
  }

  /** Inserting a quest keeps every member keyed. */
  lemma InsertIntoGuildKeepsKeyed(ms: seq<Member>, u: string, q: Quest)
    requires q.questId.Some? && KeyedMembers(ms)
    ensures KeyedMembers(InsertIntoGuild(ms, u, q))
  {
    var qs := QuestsOf(ms, u);
    if !HasQuest(qs, q.questId.value) {
      KeyedQuestsOf(ms, u);
      KeyedSnoc(qs, q);
      ReplaceKeepsKeyed(ms, u, qs + [q]);
    }
  }

  /** The quest `create_new_quest_for_all` gives a member: its latest id plus one, appended at the end. */
  function Stamp(m: Member, t: Quest): Member {
    Member(m.userId, m.quests + [t.(questId := Some(LatestQuestId(m.quests) + 1))])
  }

  /** Every member of the guild, in order, with its new quest. */
  function WithQuestForAll(ms: seq<Member>, t: Quest): seq<Member> {
    seq(|ms|, k requires 0 <= k < |ms| => Stamp(ms[k], t))
  }

  /** The guild after the first i members have had their quest inserted. */
  function StampedUpTo(ms: seq<Member>, t: Quest, i: int): seq<Member>
    requires 0 <= i <= |ms|
  {
    WithQuestForAll(ms[..i], t) + ms[i..]
  }

  /**
   * One round of the creation loop: member i still holds its old quests,
   * and inserting its stamped quest (whose id is fresh) stamps it.
   */
  lemma StampStep(ms: seq<Member>, t: Quest, i: int)
    requires UniqueUsers(ms) && 0 <= i < |ms|
    ensures UniqueUsers(StampedUpTo(ms, t, i))
    ensures QuestsOf(StampedUpTo(ms, t, i), ms[i].userId) == ms[i].quests
    ensures InsertIntoGuild(StampedUpTo(ms, t, i), ms[i].userId, t.(questId := Some(LatestQuestId(ms[i].quests) + 1)))
      == StampedUpTo(ms, t, i + 1)
  {
    var front := WithQuestForAll(ms[..i], t);
    var cur := front + ms[i..];
    var u := ms[i].userId;
    SplitFacts(front, ms, i);
    assert QuestsOf(cur, u) == ms[i].quests;
    var q := t.(questId := Some(LatestQuestId(ms[i].quests) + 1));
    assert !HasQuest(ms[i].quests, q.questId.value);
    calc {
      InsertIntoGuild(cur, u, q);
      ReplaceQuests(cur, u, ms[i].quests + [q]);
      cur[i := Stamp(ms[i], t)];
      { SplitAdvance(front, ms, i, Stamp(ms[i], t)); }
      (front + [Stamp(ms[i], t)]) + ms[i + 1..];
      { StampSnoc(ms, t, i); }
      StampedUpTo(ms, t, i + 1);
    }
  }

  lemma StampSnoc(ms: seq<Member>, t: Quest, i: int)
    requires 0 <= i < |ms|
    ensures WithQuestForAll(ms[..i + 1], t) == WithQuestForAll(ms[..i], t) + [Stamp(ms[i], t)]
  {
    assert ms[..i + 1][i] == ms[i];
  }

  /**
   * A guild whose first i members have been rewritten without changing their
   * ids: member i is still found at position i, unchanged, and the ids stay
   * distinct.
   */
  lemma SplitFacts(front: seq<Member>, ms: seq<Member>, i: int)
    requires UniqueUsers(ms) && 0 <= i < |ms| && |front| == i
    requires forall k :: 0 <= k < i ==> front[k].userId == ms[k].userId
    ensures (front + ms[i..])[i] == ms[i]
    ensures UniqueUsers(front + ms[i..])
    ensures IndexOfUser(front + ms[i..], ms[i].userId) == i
  {
    var cur := front + ms[i..];
    assert forall k :: 0 <= k < |ms| ==> cur[k].userId == ms[k].userId;
    assert cur[i] == ms[i];
    IndexOfUnique(cur, i);
  }

  /** Rewriting member i of such a guild moves the boundary one member on. */
  lemma SplitAdvance(front: seq<Member>, ms: seq<Member>, i: int, m: Member)
    requires 0 <= i < |ms| && |front| == i
    ensures (front + ms[i..])[i := m] == (front + [m]) + ms[i + 1..]
  {
  }

  /** The id `create_new_quest_for_all` returns after going through these members. */
  function LastNewId(ms: seq<Member>): Option<int> {
    if ms == [] then None else Some(LatestQuestId(ms[|ms| - 1].quests) + 1)
  }

  lemma LastNewIdStep(ms: seq<Member>, i: int)
    requires 0 <= i < |ms|
    ensures LastNewId(ms[..i + 1]) == Some(LatestQuestId(ms[i].quests) + 1)
  {
    assert ms[..i + 1][i] == ms[i];
  }

  /** Before the creation loop nothing is stamped; after it, everything is. */
  lemma StampedEnds(ms: seq<Member>, t: Quest)
    ensures StampedUpTo(ms, t, 0) == ms
    ensures StampedUpTo(ms, t, |ms|) == WithQuestForAll(ms, t)
    ensures ms[..|ms|] == ms
  {
    assert ms[..0] == [] && ms[0..] == ms;
    assert ms[..|ms|] == ms && ms[|ms|..] == [];
  }

  /**
   * A stamped member holds its old quests followed by one new quest whose id
   * is above all of its old ids; a keyed member stays keyed.
   */
  lemma StampFacts(m: Member, t: Quest)
    ensures var qs := Stamp(m, t).quests;
      qs[..|qs| - 1] == m.quests &&
      qs[|qs| - 1] == t.(questId := qs[|qs| - 1].questId) &&
      forall q :: q in m.quests ==> IdOrZero(q) < qs[|qs| - 1].questId.value
    ensures Keyed(m.quests) ==> Keyed(Stamp(m, t).quests)
  {
    var q := t.(questId := Some(LatestQuestId(m.quests) + 1));
    var qs := m.quests + [q];
    assert qs[..|qs| - 1] == m.quests;
    if Keyed(m.quests) {
      KeyedSnoc(m.quests, q);
    }
  }

  /**
   * After the creation every member holds its old quests followed by one new
   * quest whose id is above all of its old ids; the user ids are unchanged and
   * keyed members stay keyed.
   */
  lemma {:induction false} WithQuestForAllFacts(ms: seq<Member>, t: Quest)
    ensures UserIds(WithQuestForAll(ms, t)) == UserIds(ms)
    ensures forall k :: 0 <= k < |ms| ==>
      var qs := WithQuestForAll(ms, t)[k].quests;
      qs[..|qs| - 1] == ms[k].quests &&
      qs[|qs| - 1] == t.(questId := qs[|qs| - 1].questId) &&
      forall q :: q in ms[k].quests ==> IdOrZero(q) < qs[|qs| - 1].questId.value
    ensures KeyedMembers(ms) ==> KeyedMembers(WithQuestForAll(ms, t))
  {
    var r := WithQuestForAll(ms, t);
    forall k | 0 <= k < |ms|
      ensures var qs := r[k].quests;
        qs[..|qs| - 1] == ms[k].quests &&
        qs[|qs| - 1] == t.(questId := qs[|qs| - 1].questId) &&
        forall q :: q in ms[k].quests ==> IdOrZero(q) < qs[|qs| - 1].questId.value
    {
      StampFacts(ms[k], t);
    }
    if KeyedMembers(ms) {
      forall m | m in r ensures Keyed(m.quests) {
        var k :| 0 <= k < |r| && r[k] == m;
        assert ms[k] in ms;
        StampFacts(ms[k], t);
      }
    }
  }

  /** Every member of the guild with the quests of the id filtered out (`delete_quest`). */
  function RemoveEverywhere(ms: seq<Member>, id: int): seq<Member> {
    seq(|ms|, k requires 0 <= k < |ms| => Member(ms[k].userId, RemoveAllWithId(ms[k].quests, id)))
  }

  /** The guild after the loop of `delete_quest` has gone through its first i members. */
  function RemovedUpTo(ms: seq<Member>, id: int, i: int): seq<Member>
    requires 0 <= i <= |ms|
  {
    RemoveEverywhere(ms[..i], id) + ms[i..]
  }

  /**
   * One round of the deletion loop: member i is found by its id, and writing
   * back its filtered list (or skipping it when it holds no such quest)
   * filters it.
   */
  lemma RemoveStep(ms: seq<Member>, id: int, i: int)
    requires UniqueUsers(ms) && 0 <= i < |ms|
    ensures UniqueUsers(RemovedUpTo(ms, id, i))
    ensures HasQuest(ms[i].quests, id) ==>
      ReplaceQuests(RemovedUpTo(ms, id, i), ms[i].userId, RemoveAllWithId(ms[i].quests, id)) == RemovedUpTo(ms, id, i + 1)
    ensures !HasQuest(ms[i].quests, id) ==> RemovedUpTo(ms, id, i) == RemovedUpTo(ms, id, i + 1)
  {
    var front := RemoveEverywhere(ms[..i], id);
    SplitFacts(front, ms, i);
    var m := Member(ms[i].userId, RemoveAllWithId(ms[i].quests, id));
    SplitAdvance(front, ms, i, m);
    RemoveSnoc(ms, id, i);
    RemoveAllWithIdFacts(ms[i].quests, id);
    if !HasQuest(ms[i].quests, id) {
      assert m == ms[i];
      assert (front + ms[i..])[i := ms[i]] == front + ms[i..];
    }
  }

  /** Before the deletion loop nothing is filtered; after it, everything is. */
  lemma RemovedEnds(ms: seq<Member>, id: int)
    ensures RemovedUpTo(ms, id, 0) == ms
    ensures RemovedUpTo(ms, id, |ms|) == RemoveEverywhere(ms, id)
  {
    assert ms[..0] == [] && ms[0..] == ms;
    assert ms[..|ms|] == ms && ms[|ms|..] == [];
  }

  lemma RemoveSnoc(ms: seq<Member>, id: int, i: int)
    requires 0 <= i < |ms|
    ensures RemoveEverywhere(ms[..i + 1], id) ==
      RemoveEverywhere(ms[..i], id) + [Member(ms[i].userId, RemoveAllWithId(ms[i].quests, id))]
  {
    assert ms[..i + 1][i] == ms[i];
  }

  /**
   * After `delete_quest` no member holds a quest with the id, every other
   * quest of every member is still held, the user ids are unchanged and
   * keyed members stay keyed.
   */
  lemma {:induction false} RemoveEverywhereFacts(ms: seq<Member>, id: int)
    ensures UserIds(RemoveEverywhere(ms, id)) == UserIds(ms)
    ensures forall k :: 0 <= k < |ms| ==> !HasQuest(RemoveEverywhere(ms, id)[k].quests, id)
    ensures forall k, q: Quest :: 0 <= k < |ms| && q.questId != Some(id) ==>
      (q in RemoveEverywhere(ms, id)[k].quests <==> q in ms[k].quests)
    ensures KeyedMembers(ms) ==> KeyedMembers(RemoveEverywhere(ms, id))
  {
    var r := RemoveEverywhere(ms, id);
    forall k | 0 <= k < |ms| ensures !HasQuest(r[k].quests, id) &&
      forall q: Quest :: q.questId != Some(id) ==> (q in r[k].quests <==> q in ms[k].quests)
    {
      RemoveAllWithIdFacts(ms[k].quests, id);
    }
    if KeyedMembers(ms) {
      forall m | m in r ensures Keyed(m.quests) {
        var k :| 0 <= k < |r| && r[k] == m;
        assert ms[k] in ms;
        RemoveAllKeepsKeyed(ms[k].quests, id);
      }
    }
  }

  /**
   * Every member keeps each of its other quests as often as it had it, in
   * its order, and keeps no copy of a quest with the id.
   */
  lemma RemoveEverywhereKeepsOrder(ms: seq<Member>, id: int, k: int, a: seq<Quest>, b: seq<Quest>)
    requires 0 <= k < |ms| && ms[k].quests == a + b
    ensures RemoveEverywhere(ms, id)[k].quests == RemoveAllWithId(a, id) + RemoveAllWithId(b, id)
    ensures forall q: Quest ::
      multiset(RemoveEverywhere(ms, id)[k].quests)[q] == (if q.questId == Some(id) then 0 else multiset(ms[k].quests)[q])
  {
    RemoveAllWithIdConcat(a, b, id);
    RemoveAllWithIdCounts(ms[k].quests, id);
  }

  // ---------------------------------------------------------------------------
  // The progress rule of Quest_Checker

  /** Which listener fired. */
  datatype EventKind = MessageSent | ReactionAdded

  /** `quest['content'] in text`: Python's substring test. */
  predicate Contains(text: string, needle: string) {
    exists i :: 0 <= i <= |text| - |needle| && OccursAt(text, needle, i)
  }

  predicate OccursAt(text: string, needle: string, i: int)
    requires 0 <= i <= |text| - |needle|
  {
    text[i..i + |needle|] == needle
  }

  /**
   * The quest counts this event: `send`/`message` for a message, `react`/
   * `reaction` for a reaction, in the quest's channel, with its content
   * inside the message text or the emoji.
   */
  predicate Triggers(q: Quest, kind: EventKind, channelId: int, text: string) {
    ActionMatches(q, kind) && q.channelId == channelId && Contains(text, q.content)
  }

  /** `send`/`message` quests listen to messages, `react`/`reaction` quests to reactions. */
  predicate ActionMatches(q: Quest, kind: EventKind) {
    match kind
    case MessageSent => q.action == "send" && q.via == "message"
    case ReactionAdded => q.action == "react" && q.via == "reaction"
  }

  /**
   * What one quest becomes: untouched when the event does not count for it,
   * gone once the incremented progress reaches `times` (completed), else kept
   * with the incremented progress.
   */
  function Step(q: Quest, kind: EventKind, channelId: int, text: string): seq<Quest> {
    if !Triggers(q, kind, channelId, text) then [q]
    else if q.progress + 1 >= q.times then []
    else [q.(progress := q.progress + 1)]
  }

  /** The member's quest list after the listener has gone through all of it. */
  function Progressed(qs: seq<Quest>, kind: EventKind, channelId: int, text: string): seq<Quest> {
    if qs == [] then []
    else Progressed(qs[..|qs| - 1], kind, channelId, text) + Step(qs[|qs| - 1], kind, channelId, text)
  }

  /** Every quest left after the event is an old quest or an old quest with progress one higher. */
  lemma {:induction false} ProgressedFromOld(qs: seq<Quest>, kind: EventKind, channelId: int, text: string)
    ensures forall x :: x in Progressed(qs, kind, channelId, text) ==>
      exists i :: 0 <= i < |qs| && x.questId == qs[i].questId && (x == qs[i] || x == qs[i].(progress := qs[i].progress + 1))
    ensures |Progressed(qs, kind, channelId, text)| <= |qs|
  {
    if qs != [] {
      var front := qs[..|qs| - 1];
      ProgressedFromOld(front, kind, channelId, text);
      forall x | x in Progressed(qs, kind, channelId, text)
        ensures exists i :: 0 <= i < |qs| && x.questId == qs[i].questId && (x == qs[i] || x == qs[i].(progress := qs[i].progress + 1))
      {
        if x in Progressed(front, kind, channelId, text) {
          var i :| 0 <= i < |front| && x.questId == front[i].questId && (x == front[i] || x == front[i].(progress := front[i].progress + 1));
          assert qs[i] == front[i];
        } else {
          assert x in Step(qs[|qs| - 1], kind, channelId, text);
        }
      }
    }
  }

  /**
   * For a keyed member the event does exactly what the listener promises: a
   * quest it does not count for stays, a counted quest below its goal is kept
   * with progress one higher, and a counted quest that reaches its goal is
   * gone; the list stays keyed.
   */
  lemma {:induction false} ProgressRule(qs: seq<Quest>, kind: EventKind, channelId: int, text: string, k: nat)
    requires Keyed(qs) && k < |qs|
    ensures var r := Progressed(qs, kind, channelId, text);
      var q := qs[k];
      (!Triggers(q, kind, channelId, text) ==> q in r) &&
      (Triggers(q, kind, channelId, text) && q.progress + 1 < q.times ==> q.(progress := q.progress + 1) in r) &&
      (Triggers(q, kind, channelId, text) && q.progress + 1 >= q.times ==> !HasQuest(r, q.questId.value))
  {
    var front := qs[..|qs| - 1];
    var last := qs[|qs| - 1];
    assert Keyed(front);
    if k < |qs| - 1 {
      assert front[k] == qs[k];
      ProgressRule(front, kind, channelId, text, k);
      var q := qs[k];
      assert q.questId != last.questId;
    } else {
      LastIdNotInFront(qs, kind, channelId, text);
    }
  }

  /** In a keyed list, no quest left from the front part carries the last quest's id. */
  lemma LastIdNotInFront(qs: seq<Quest>, kind: EventKind, channelId: int, text: string)
    requires Keyed(qs) && qs != []
    ensures forall x :: x in Progressed(qs[..|qs| - 1], kind, channelId, text) ==> x.questId != qs[|qs| - 1].questId
  {
    var front := qs[..|qs| - 1];
    ProgressedFromOld(front, kind, channelId, text);
    forall x | x in Progressed(front, kind, channelId, text) ensures x.questId != qs[|qs| - 1].questId {
      var i :| 0 <= i < |front| && x.questId == front[i].questId && (x == front[i] || x == front[i].(progress := front[i].progress + 1));
      assert qs[i] == front[i];
    }
  }

  /** Every quest id after the event is an id of the list before it. */
  lemma ProgressedIds(qs: seq<Quest>, kind: EventKind, channelId: int, text: string, x: Quest)
    requires x in Progressed(qs, kind, channelId, text)
    ensures exists i :: 0 <= i < |qs| && qs[i].questId == x.questId
  {
    ProgressedFromOld(qs, kind, channelId, text);
  }

  /**
   * The listener's effect on the whole store: nothing for a bot, for ids that
   * fail validation (the ValueError is caught by the listener), or for a user
   * without quests; otherwise the user's list is progressed.
   */
  function AfterEvent(servers: map<string, seq<Member>>, kind: EventKind, fromBot: bool,
                      g: string, u: string, channelId: int, text: string): map<string, seq<Member>> {
    if fromBot || u == [] || g == [] then servers
    else if g !in servers || QuestsOf(servers[g], u) == [] then servers
    else servers[g := ReplaceQuests(servers[g], u, Progressed(QuestsOf(servers[g], u), kind, channelId, text))]
  }

  /**
   * What one round of the listener's loop does to the stored list `qs` for
   * the snapshot quest q: nothing when the event does not count for it; the
   * first quest with its id removed when the incremented progress reaches
   * `times`; otherwise that quest's progress set to the incremented value.
   */
  function ApplyStep(qs: seq<Quest>, q: Quest, kind: EventKind, channelId: int, text: string): seq<Quest>
    requires q.questId.Some?
  {
    if !Triggers(q, kind, channelId, text) then qs
    else if q.progress + 1 >= q.times then RemoveFirstWithId(qs, q.questId.value)
    else SetProgressOfFirst(qs, q.questId.value, q.progress + 1)
  }

  /**
   * One round of the listener's loop over its snapshot `qs`, on the stored
   * list `Progressed(qs[..i]) + qs[i..]`: deleting the first quest with the
   * id of `qs[i]`, or setting its progress, turns it into the list one
   * round further.
   */
  lemma {:induction false} ListenStep(qs: seq<Quest>, i: int, kind: EventKind, channelId: int, text: string)
    requires Keyed(qs) && 0 <= i < |qs|
    ensures ApplyStep(Progressed(qs[..i], kind, channelId, text) + qs[i..], qs[i], kind, channelId, text) ==
      Progressed(qs[..i + 1], kind, channelId, text) + qs[i + 1..]
  {
    var front := Progressed(qs[..i], kind, channelId, text);
    var q := qs[i];
    ProgressedSnoc(qs, i, kind, channelId, text);
    PrefixIdsDiffer(qs, i, kind, channelId, text);
    assert qs[i] in qs;
    var rest := qs[i..];
    assert rest[0] == q && rest[1..] == qs[i + 1..];
    var st := Step(q, kind, channelId, text);
    StepOnSplit(front, rest, st, q.questId.value);
    assert Progressed(qs[..i + 1], kind, channelId, text) + qs[i + 1..] == front + st + rest[1..];
    if !Triggers(q, kind, channelId, text) {
      assert st == [q];
    } else if q.progress + 1 >= q.times {
      assert st == [];
    } else {
      assert st == [q.(progress := q.progress + 1)];
    }
  }

  /**
   * The three outcomes of one quest, on a stored list `front + rest` whose
   * first quest with the id is the head of `rest`.
   */
  lemma StepOnSplit(front: seq<Quest>, rest: seq<Quest>, step: seq<Quest>, id: int)
    requires forall x :: x in front ==> x.questId != Some(id)
    requires rest != [] && rest[0].questId == Some(id)
    ensures step == [rest[0]] ==> front + step + rest[1..] == front + rest
    ensures step == [] ==> RemoveFirstWithId(front + rest, id) == front + step + rest[1..]
    ensures step == [rest[0].(progress := rest[0].progress + 1)] ==>
      HasQuest(front + rest, id) &&
      SetProgressOfFirst(front + rest, id, rest[0].progress + 1) == front + step + rest[1..]
  {
    OnSplitList(front, rest, id, rest[0].progress + 1);
    assert [rest[0]] + rest[1..] == rest;
  }

  /** Before the listeners' loop nothing is progressed; after it, everything is. */
  lemma ListenedEnds(qs: seq<Quest>, kind: EventKind, channelId: int, text: string)
    ensures Progressed(qs[..0], kind, channelId, text) + qs[0..] == qs
    ensures Progressed(qs[..|qs|], kind, channelId, text) + qs[|qs|..] == Progressed(qs, kind, channelId, text)
  {
    assert qs[..0] == [] && qs[0..] == qs;
    assert qs[..|qs|] == qs && qs[|qs|..] == [];
  }

  lemma ProgressedSnoc(qs: seq<Quest>, i: int, kind: EventKind, channelId: int, text: string)
    requires 0 <= i < |qs|
    ensures Progressed(qs[..i + 1], kind, channelId, text) ==
      Progressed(qs[..i], kind, channelId, text) + Step(qs[i], kind, channelId, text)
  {
    assert qs[..i + 1][..i] == qs[..i];
  }

  /** In a keyed list, nothing left from the quests before position i carries the id at i. */
  lemma PrefixIdsDiffer(qs: seq<Quest>, i: int, kind: EventKind, channelId: int, text: string)
    requires Keyed(qs) && 0 <= i < |qs|
    ensures forall x :: x in Progressed(qs[..i], kind, channelId, text) ==> x.questId != qs[i].questId
  {
    ProgressedFromOld(qs[..i], kind, channelId, text);
    forall x | x in Progressed(qs[..i], kind, channelId, text) ensures x.questId != qs[i].questId {
      var j :| 0 <= j < i && x.questId == qs[..i][j].questId &&
        (x == qs[..i][j] || x == qs[..i][j].(progress := qs[..i][j].progress + 1));
      assert qs[..i][j] == qs[j];
    }
  }

  /** On `front + rest` with the id first appearing at the head of `rest`, both updates act on that head. */
  lemma OnSplitList(front: seq<Quest>, rest: seq<Quest>, id: int, p: int)
    requires forall x :: x in front ==> x.questId != Some(id)
    requires rest != [] && rest[0].questId == Some(id)
    ensures HasQuest(front + rest, id)
    ensures RemoveFirstWithId(front + rest, id) == front + rest[1..]
    ensures SetProgressOfFirst(front + rest, id, p) == front + [rest[0].(progress := p)] + rest[1..]
  {
    FirstWithIdAfter(front, rest, id);
    var cur := front + rest;
    var n := |front|;
    assert cur[n] == rest[0];
    assert cur[..n] == front;
    assert cur[n + 1..] == rest[1..];
    assert cur[n := rest[0].(progress := p)] == front + [rest[0].(progress := p)] + rest[1..];
  }
}
