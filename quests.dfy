/**
 * `Quest_Data` and `Quest_Checker` of Cogs/quest.py. The `Servers`
 * collection is the field `servers`, one member list per guild id; each
 * MongoDB update becomes a reassignment of that field.
 */
module Quests {
  import opened Wrappers
  import opened QuestRecords

  class QuestData {
    /** The guild documents of the `Servers` collection: guild id to its members. */
    var servers: map<string, seq<Member>>

    /** Member ids are the keys of a JSON object, so they are distinct within a guild. */
    ghost predicate Valid()
      reads this
    {
      ValidStore(servers)
    }

    /** Every stored quest has an id, distinct among its member's quests. */
    ghost predicate Keyed()
      reads this
    {
      KeyedStore(servers)
    }

    constructor()
      ensures servers == map[] && Valid() && Keyed()
    {
      servers := map[];
    }

    /** The members of guild g; a missing guild document has none. */
    function MembersOf(g: string): seq<Member>
      reads this
    {
      if g in servers then servers[g] else []
    }

    /**
     * `find_users_in_server`: the user ids of the guild, in member order; [] for
     * an unknown guild. A user is listed exactly when the guild has it as a
     * member, and in a valid store no user is listed twice.
     */
    function FindUsersInServer(g: string): (r: seq<string>)
      reads this
      ensures |r| == |MembersOf(g)|
      ensures forall k :: 0 <= k < |r| ==> r[k] == MembersOf(g)[k].userId
      ensures forall u :: u in r <==> IndexOfUser(MembersOf(g), u) != -1
      ensures Valid() ==> forall i, j :: 0 <= i < j < |r| ==> r[i] != r[j]
    {
      UserIdsAreMembers(MembersOf(g));
      if g in servers then UserIds(servers[g]) else []
    }

    /**
     * `find_users_with_quest`: [] for an unknown guild; when every quest of
     * the guild has an id, exactly the users holding the quest, in member
     * order; KeyError otherwise if a quest without an id is reached.
     */
    function FindUsersWithQuest(g: string, id: int): (r: Result<seq<string>>)
      reads this
      ensures g !in servers ==> r == Success([])
      ensures (forall m, q :: m in MembersOf(g) && q in m.quests ==> q.questId.Some?) ==>
        r == Success(Holders(MembersOf(g), id))
    {
      if g !in servers then Success([])
      else
        UsersWithQuestAreHolders(servers[g], id);
        UsersWithQuest(servers[g], id)
    }

    /**
     * `find_quests_by_user_and_server`: the ValueError of an empty id escapes;
     * otherwise the user's quests, [] for an unknown guild or user.
     */
    function FindQuestsByUserAndServer(u: string, g: string): (r: Result<seq<Quest>>)
      reads this
      ensures r.Failure? <==> u == [] || g == []
      ensures r.Success? ==> r.value == QuestsOf(MembersOf(g), u)
      ensures r.Success? && r.value != [] ==> g in servers && IndexOfUser(servers[g], u) != -1
    {
      var args := [("user_id", Str(u)), ("guild_id", Str(g))];
      assert args[0].1 == Str(u) && args[1].1 == Str(g);
      match ValidateInput(args)
      case Some(key) => Failure(key + " cannot be None or empty")
      case None => Success(QuestsOf(MembersOf(g), u))
    }

    /**
     * `get_latest_quest_id`: the largest id among the user's quests, a missing
     * id counting as 0; 0 when there are none. One more is an id none of them has.
     */
    function GetLatestQuestId(g: string, u: string): (r: int)
      reads this
      ensures forall q :: q in QuestsOf(MembersOf(g), u) ==> IdOrZero(q) <= r
      ensures QuestsOf(MembersOf(g), u) != [] ==> exists q :: q in QuestsOf(MembersOf(g), u) && IdOrZero(q) == r
      ensures QuestsOf(MembersOf(g), u) == [] ==> r == 0
      ensures !HasQuest(QuestsOf(MembersOf(g), u), r + 1)
    {
      LatestQuestId(QuestsOf(MembersOf(g), u))
    }

    /**
     * `insert_quest`: the stored quest has progress 0. A quest whose action,
     * method or content is empty is refused (ValueError, caught); one without
     * an id raises KeyError, which escapes; otherwise the quest is appended to
     * the user's list unless that list already has its id, creating the guild
     * and the member when they are missing.
     */
    method InsertQuest(g: string, u: string, quest: Quest) returns (r: Result<()>)
      requires Valid()
      modifies this
      ensures Valid()
      ensures old(Keyed()) ==> Keyed()
      ensures var q := quest.(progress := 0);
        if q.action == [] || q.via == [] || q.content == [] then r.Success? && servers == old(servers)
        else if q.questId.None? then r.Failure? && servers == old(servers)
        else r.Success? && servers == old(servers)[g := InsertIntoGuild(old(MembersOf(g)), u, q)]
    {
      var q := quest.(progress := 0);
      QuestValidation(q);
      if ValidateInput(QuestKwargs(q)).Some? {
        return Success(());
      }
      if q.questId.None? {
        return Failure("KeyError: 'quest_id'");
      }
      var ms := MembersOf(g);
      InsertIntoGuildFacts(ms, u, q);
      if Keyed() {
        assert KeyedMembers(ms);
        InsertIntoGuildKeepsKeyed(ms, u, q);
      }
      StoreUpdate(servers, g, InsertIntoGuild(ms, u, q));
      servers := servers[g := InsertIntoGuild(ms, u, q)];
      r := Success(());
    }

    /**
     * `create_new_quest_for_all`: after validating its arguments it gives
     * every member of the guild, in order, a new quest whose id is one more
     * than that member's latest, and returns the id given to the last member;
     * None when validation fails or the guild has no members.
     */
    method CreateNewQuestForAll(g: string, action: string, via: string, channelId: int, times: int, content: string)
      returns (r: Option<int>)
      requires Valid()
      modifies this
      ensures Valid()
      ensures old(Keyed()) ==> Keyed()
      ensures var t := Quest(None, action, via, channelId, times, content, 0);
        if g == [] || action == [] || via == [] || content == [] || g !in old(servers) then
          r.None? && servers == old(servers)
        else
          servers == old(servers)[g := WithQuestForAll(old(servers)[g], t)] &&
          r == LastNewId(old(servers)[g])
    {
      CreateValidation(g, action, via, channelId, times, content);
      if ValidateInput(CreateKwargs(g, action, via, channelId, times, content)).Some? {
        return None;
      }
      var users := FindUsersInServer(g);
      ghost var ms := MembersOf(g);
      var t := Quest(None, action, via, channelId, times, content, 0);
      var newQuestId: Option<int> := None;
      StampedEnds(ms, t);
      if g in old(servers) {
        UpdateSame(servers, g);
      }
      assert UniqueUsers(ms);
      for i := 0 to |users|
        invariant |users| == |ms| && UniqueUsers(ms)
        invariant Valid()
        invariant old(Keyed()) ==> Keyed()
        invariant g in old(servers) ==> servers == old(servers)[g := StampedUpTo(ms, t, i)]
        invariant g !in old(servers) ==> servers == old(servers)
        invariant newQuestId == LastNewId(ms[..i])
      {
        assert g in old(servers) && users[i] == ms[i].userId;
        var id := StampNext(g, users[i], t, ms, i, old(servers));
        newQuestId := Some(id);
        LastNewIdStep(ms, i);
      }
      r := newQuestId;
    }

    /**
     * Round i of the loop of `create_new_quest_for_all` on the guild `ms`
     * (captured before the loop), when its first i members are stamped:
     * member i is stamped too, and its new id is returned.
     */
    method StampNext(g: string, u: string, t: Quest, ghost ms: seq<Member>, i: int,
                     ghost base: map<string, seq<Member>>) returns (id: int)
      requires Valid() && UniqueUsers(ms) && 0 <= i < |ms| && u == ms[i].userId
      requires t.questId.None? && t.action != [] && t.via != [] && t.content != [] && t.progress == 0
      requires servers == base[g := StampedUpTo(ms, t, i)]
      modifies this
      ensures Valid()
      ensures old(Keyed()) ==> Keyed()
      ensures servers == base[g := StampedUpTo(ms, t, i + 1)]
      ensures id == LatestQuestId(ms[i].quests) + 1
    {
      StampStep(ms, t, i);
      ghost var before := servers;
      assert MembersOf(g) == StampedUpTo(ms, t, i);
      id := InsertNextQuest(g, u, t);
      assert servers == before[g := StampedUpTo(ms, t, i + 1)];
      UpdateTwice(base, g, StampedUpTo(ms, t, i), StampedUpTo(ms, t, i + 1));
    }

    /**
     * One round of the loop of `create_new_quest_for_all`: the user's latest
     * id plus one becomes the id of the template quest, which is inserted.
     */
    method InsertNextQuest(g: string, u: string, t: Quest) returns (id: int)
      requires Valid() && t.action != [] && t.via != [] && t.content != [] && t.progress == 0
      modifies this
      ensures Valid()
      ensures old(Keyed()) ==> Keyed()
      ensures id == LatestQuestId(QuestsOf(old(MembersOf(g)), u)) + 1
      ensures servers == old(servers)[g := InsertIntoGuild(old(MembersOf(g)), u, t.(questId := Some(id)))]
    {
      var latest := GetLatestQuestId(g, u);
      id := latest + 1;
      var quest := Quest(Some(id), t.action, t.via, t.channelId, t.times, t.content, 0);
      assert quest.(progress := 0) == quest == t.(questId := Some(id));
      var _ := InsertQuest(g, u, quest);
    }

    /**
     * `add_user_to_server`: the user's entry becomes an empty quest list,
     * replacing whatever it held, and the guild is created when missing.
     */
    method AddUserToServer(u: string, g: string)
      requires Valid()
      modifies this
      ensures Valid()
      ensures old(Keyed()) ==> Keyed()
      ensures servers == old(servers)[g := ReplaceQuests(old(MembersOf(g)), u, [])]
    {
      var ms := MembersOf(g);
      ReplaceQuestsFacts(ms, u, []);
      if Keyed() {
        assert KeyedMembers(ms);
        ReplaceKeepsKeyed(ms, u, []);
      }
      StoreUpdate(servers, g, ReplaceQuests(ms, u, []));
      servers := servers[g := ReplaceQuests(ms, u, [])];
    }

    /**
     * `delete_quest`: every member of the guild holding a quest with the id
     * has all such quests filtered out; an unknown guild is left alone.
     */
    method DeleteQuest(g: string, id: int)
      requires Valid()
      modifies this
      ensures Valid()
      ensures old(Keyed()) ==> Keyed()
      ensures servers == if g in old(servers) then old(servers)[g := RemoveEverywhere(old(servers)[g], id)] else old(servers)
    {
      if g !in servers {
        return;
      }
      var ms := servers[g];
      RemovedEnds(ms, id);
      RemoveEverywhereFacts(ms, id);
      assert UniqueUsers(RemoveEverywhere(ms, id));
      StoreUpdate(servers, g, RemoveEverywhere(ms, id));
      for i := 0 to |ms|
        invariant servers == old(servers)[g := RemovedUpTo(ms, id, i)]
      {
        var m := ms[i];
        RemoveStep(ms, id, i);
        if HasQuest(m.quests, id) {
          var newQuests := RemoveAllWithId(m.quests, id);
          servers := servers[g := ReplaceQuests(servers[g], m.userId, newQuests)];
        }
      }
    }

    /**
     * `delete_quest_for_user`: the first quest of the user with the id is
     * removed; an unknown guild or user is left alone.
     */
    method DeleteQuestForUser(g: string, u: string, id: int)
      requires Valid()
      modifies this
      ensures Valid()
      ensures old(Keyed()) ==> Keyed()
      ensures servers ==
        if g in old(servers) && IndexOfUser(old(servers)[g], u) != -1 then
          old(servers)[g := ReplaceQuests(old(servers)[g], u, RemoveFirstWithId(QuestsOf(old(servers)[g], u), id))]
        else old(servers)
    {
      if g !in servers {
        return;
      }
      var ms := servers[g];
      if IndexOfUser(ms, u) == -1 {
        return;
      }
      var userQuests := RemoveFirstMatch(QuestsOf(ms, u), id);
      ReplaceQuestsFacts(ms, u, userQuests);
      if Keyed() {
        assert KeyedMembers(ms);
        RemoveFirstKeepsKeyed(ms, u, id);
      }
      StoreUpdate(servers, g, ReplaceQuests(ms, u, userQuests));
      servers := servers[g := ReplaceQuests(ms, u, userQuests)];
    }

    /** The search loop of `delete_quest_for_user`: drop the first quest with the id and stop. */
    static method RemoveFirstMatch(qs: seq<Quest>, id: int) returns (r: seq<Quest>)
      ensures r == RemoveFirstWithId(qs, id)
    {
      r := qs;
      var i := 0;
      while i < |r|
        invariant 0 <= i <= |qs| && r == qs
        invariant forall j :: 0 <= j < i ==> qs[j].questId != Some(id)
      {
        if r[i].questId == Some(id) {
          r := r[..i] + r[i + 1..];
          return;
        }
        i := i + 1;
      }
      assert !HasQuest(qs, id);
    }

    /**
     * `update_quest_progress`: when the user holds a quest with the id, the
     * first such quest gets the new progress; otherwise nothing matches and
     * nothing changes.
     */
    method UpdateQuestProgress(g: string, u: string, id: int, progress: int)
      requires Valid()
      modifies this
      ensures Valid()
      ensures old(Keyed()) ==> Keyed()
      ensures servers ==
        if g in old(servers) && HasQuest(QuestsOf(old(servers)[g], u), id) then
          old(servers)[g := ReplaceQuests(old(servers)[g], u, SetProgressOfFirst(QuestsOf(old(servers)[g], u), id, progress))]
        else old(servers)
    {
      if g !in servers || !HasQuest(QuestsOf(servers[g], u), id) {
        return;
      }
      var ms := servers[g];
      var qs := SetProgressOfFirst(QuestsOf(ms, u), id, progress);
      ReplaceQuestsFacts(ms, u, qs);
      if Keyed() {
        KeyedQuestsOf(ms, u);
        SetProgressKeepsKeyed(QuestsOf(ms, u), id, progress);
        ReplaceKeepsKeyed(ms, u, qs);
      }
      StoreUpdate(servers, g, ReplaceQuests(ms, u, qs));
      servers := servers[g := ReplaceQuests(ms, u, qs)];
    }
  }

  /** Writing a key twice leaves the second value. */
  lemma UpdateTwice<K, V>(m: map<K, V>, k: K, a: V, b: V)
    ensures m[k := a][k := b] == m[k := b]
  {
  }

  /** Member ids are distinct within every guild. */
  ghost predicate ValidStore(s: map<string, seq<Member>>) {
    forall g :: g in s ==> UniqueUsers(s[g])
  }

  /** Every member of every guild is keyed. */
  ghost predicate KeyedStore(s: map<string, seq<Member>>) {
    forall g :: g in s ==> KeyedMembers(s[g])
  }

  /** Writing one guild's members keeps the store valid, and keyed, when they are. */
  lemma StoreUpdate(s: map<string, seq<Member>>, g: string, ms: seq<Member>)
    requires ValidStore(s) && UniqueUsers(ms)
    ensures ValidStore(s[g := ms])
    ensures KeyedStore(s) && KeyedMembers(ms) ==> KeyedStore(s[g := ms])
  {
  }

  /** Writing back the value a key holds leaves the map as it was. */
  lemma UpdateSame<K, V>(m: map<K, V>, k: K)
    requires k in m
    ensures m[k := m[k]] == m
  {
  }

  /**
   * `Quest_Checker`: the listeners that advance quests. The store is the
   * `Quest_Data` the listeners share with the rest of the bot.
   */
  class QuestChecker {
    const data: QuestData

    constructor(data: QuestData)
      ensures this.data == data
    {
      this.data := data;
    }

    /** `on_message`: a message counts for `send`/`message` quests. */
    method OnMessage(authorIsBot: bool, g: string, u: string, channelId: int, content: string)
      requires data.Valid() && data.Keyed()
      modifies data
      ensures data.Valid() && data.Keyed()
      ensures data.servers == AfterEvent(old(data.servers), MessageSent, authorIsBot, g, u, channelId, content)
    {
      Listen(MessageSent, authorIsBot, g, u, channelId, content);
    }

    /** `on_reaction_add`: a reaction counts for `react`/`reaction` quests, matched against the emoji. */
    method OnReactionAdd(userIsBot: bool, g: string, u: string, channelId: int, emoji: string)
      requires data.Valid() && data.Keyed()
      modifies data
      ensures data.Valid() && data.Keyed()
      ensures data.servers == AfterEvent(old(data.servers), ReactionAdded, userIsBot, g, u, channelId, emoji)
    {
      Listen(ReactionAdded, userIsBot, g, u, channelId, emoji);
    }

    /**
     * The body both listeners share: go through a snapshot of the user's
     * quests; a quest the event counts for is completed (deleted) once its
     * incremented progress reaches `times`, and otherwise stored with the
     * incremented progress.
     */
    method Listen(kind: EventKind, fromBot: bool, g: string, u: string, channelId: int, text: string)
      requires data.Valid() && data.Keyed()
      modifies data
      ensures data.Valid() && data.Keyed()
      ensures data.servers == AfterEvent(old(data.servers), kind, fromBot, g, u, channelId, text)
    {
      if fromBot {
        return;
      }
      var found := data.FindQuestsByUserAndServer(u, g);
      if found.Failure? {
        return;
      }
      var quests := found.value;
      if quests == [] {
        return;
      }
      assert quests == QuestsOf(old(data.servers)[g], u);
      ProcessAll(kind, g, u, channelId, text, quests);
    }

    /** The listeners' loop over the snapshot of the user's quests. */
    method ProcessAll(kind: EventKind, g: string, u: string, channelId: int, text: string, quests: seq<Quest>)
      requires data.Valid() && data.Keyed()
      requires g in data.servers && IndexOfUser(data.servers[g], u) != -1 && quests == QuestsOf(data.servers[g], u)
      modifies data
      ensures data.Valid() && data.Keyed()
      ensures data.servers == old(data.servers)[g := ReplaceQuests(old(data.servers)[g], u, Progressed(quests, kind, channelId, text))]
    {
      ghost var ms := data.servers[g];
      assert KeyedMembers(ms);
      KeyedQuestsOf(ms, u);
      ReplaceSame(ms, u);
      ListenedEnds(quests, kind, channelId, text);
      UpdateSame(data.servers, g);
      for i := 0 to |quests|
        invariant data.Valid() && data.Keyed()
        invariant data.servers == old(data.servers)[g := ReplaceQuests(ms, u, Progressed(quests[..i], kind, channelId, text) + quests[i..])]
      {
        ProcessNext(kind, g, u, channelId, text, quests, ms, i, old(data.servers));
      }
    }

    /**
     * Round i of the listeners' loop over the snapshot `quests` of the user's
     * list in the guild `ms` (both captured before the loop): the stored list
     * goes from `Progressed(quests[..i]) + quests[i..]` one quest further.
     */
    method ProcessNext(kind: EventKind, g: string, u: string, channelId: int, text: string,
                       quests: seq<Quest>, ghost ms: seq<Member>, i: int, ghost base: map<string, seq<Member>>)
      requires data.Valid() && data.Keyed() && Keyed(quests) && 0 <= i < |quests|
      requires UniqueUsers(ms) && IndexOfUser(ms, u) != -1
      requires data.servers == base[g := ReplaceQuests(ms, u, Progressed(quests[..i], kind, channelId, text) + quests[i..])]
      modifies data
      ensures data.Valid() && data.Keyed()
      ensures data.servers == base[g := ReplaceQuests(ms, u, Progressed(quests[..i + 1], kind, channelId, text) + quests[i + 1..])]
    {
      var quest := quests[i];
      assert quest in quests;
      ListenStep(quests, i, kind, channelId, text);
      ghost var cur := Progressed(quests[..i], kind, channelId, text) + quests[i..];
      ghost var next := Progressed(quests[..i + 1], kind, channelId, text) + quests[i + 1..];
      ReplaceQuestsFacts(ms, u, cur);
      ReplaceTwice(ms, u, cur, next);
      ghost var before := data.servers;
      assert before[g] == ReplaceQuests(ms, u, cur);
      assert IndexOfUser(before[g], u) != -1 && QuestsOf(before[g], u) == cur;
      ProcessQuest(kind, g, u, channelId, text, quest);
      assert data.servers == before[g := ReplaceQuests(ms, u, next)];
      UpdateTwice(base, g, ReplaceQuests(ms, u, cur), ReplaceQuests(ms, u, next));
    }

    /**
     * One round of the listeners' loop: a quest the event counts for is
     * completed once its incremented progress reaches `times`, and otherwise
     * stored with the incremented progress; any other quest is left alone.
     */
    method ProcessQuest(kind: EventKind, g: string, u: string, channelId: int, text: string, quest: Quest)
      requires data.Valid() && quest.questId.Some?
      modifies data
      ensures data.Valid()
      ensures old(data.Keyed()) ==> data.Keyed()
      ensures var before := old(data.servers);
        data.servers == if g in before && IndexOfUser(before[g], u) != -1 then
          before[g := ReplaceQuests(before[g], u, ApplyStep(QuestsOf(before[g], u), quest, kind, channelId, text))]
        else before
    {
      if ActionMatches(quest, kind) {
        if quest.channelId == channelId && Contains(text, quest.content) {
          var progress := quest.progress + 1;
          if progress >= quest.times {
            CompleteQuest(g, u, quest);
          } else {
            data.UpdateQuestProgress(g, u, quest.questId.value, progress);
          }
        }
      }
      if g in old(data.servers) && IndexOfUser(old(data.servers)[g], u) != -1 {
        ReplaceSame(old(data.servers)[g], u);
      }
    }

    /**
     * `complete_quest`: the completion notice goes to the quest's channel and
     * the quest is deleted for the user; `quest['quest_id']` raising KeyError
     * is caught here, so a quest without an id is left in place.
     */
    method CompleteQuest(g: string, u: string, quest: Quest)
      requires data.Valid()
      modifies data
      ensures data.Valid()
      ensures old(data.Keyed()) ==> data.Keyed()
      ensures data.servers ==
        if quest.questId.Some? && g in old(data.servers) && IndexOfUser(old(data.servers)[g], u) != -1 then
          old(data.servers)[g := ReplaceQuests(old(data.servers)[g], u,
                                               RemoveFirstWithId(QuestsOf(old(data.servers)[g], u), quest.questId.value))]
        else old(data.servers)
    {
      if quest.questId.None? {
        return;
      }
      data.DeleteQuestForUser(g, u, quest.questId.value);
    }
  }
}
