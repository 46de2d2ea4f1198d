/** Chat discovery from a Telegram bot's `getUpdates` answer: the group list
    of `get_group_ids` (get_chat_id.py) and the single chat id chosen by
    `TelegramNotifier.get_chat_id` (alert_coin.py). The JSON answer is a
    value; a request that raises is `RequestFailed`. */
module TelegramUpdates {
  import opened Base

  /** A chat object; every key may be absent. */
  datatype Chat = Chat(id: Option<int>, kind: Option<string>, title: Option<string>)

  /** A `message` or `my_chat_member` object, of which only `chat` is read. */
  datatype Envelope = Envelope(chat: Option<Chat>)

  /** One update; either key may be absent. */
  datatype Update = Update(message: Option<Envelope>, myChatMember: Option<Envelope>)

  /** The decoded body: `ok` as its truth value, `result` possibly absent. */
  datatype Response = Response(ok: bool, result: Option<seq<Update>>)

  /** The outcome of the HTTP request and JSON decoding. */
  datatype Reply = Received(response: Response) | RequestFailed

  /** One entry of the returned list; `kind` is the chat's `type`. */
  datatype GroupEntry = GroupEntry(id: Option<int>, title: string, kind: string)

  /** Whether the update carries one of the two envelopes. */
  predicate HasEnvelope(u: Update) {
    u.message.Some? || u.myChatMember.Some?
  }

  /** The chat an update is about: the message's chat when the update has a
      message, otherwise the member change's chat. */
  function ChatOf(u: Update): (c: Option<Chat>)
    ensures u.message.Some? ==> c == u.message.value.chat
    ensures !HasEnvelope(u) ==> c == None
  {
    if u.message.Some? then u.message.value.chat
    else if u.myChatMember.Some? then u.myChatMember.value.chat
    else None
  }

  /** A present chat whose type is "group" or "supergroup". */
  predicate IsGroupChat(c: Option<Chat>) {
    c.Some? && (c.value.kind == Some("group") || c.value.kind == Some("supergroup"))
  }

  /** The ids of all group chats among the updates. */
  function SeenIds(us: seq<Update>): set<Option<int>> {
    set k | 0 <= k < |us| && IsGroupChat(ChatOf(us[k])) :: ChatOf(us[k]).value.id
  }

  /** The entry recorded for a chat: a missing title becomes "?". */
  function EntryOf(c: Chat): GroupEntry
    requires c.kind.Some?
  {
    GroupEntry(c.id, c.title.GetOr("?"), c.kind.value)
  }

  /** The update at position k is a group chat whose id no earlier group
      chat had. */
  predicate FirstAt(us: seq<Update>, k: nat)
    requires k < |us|
  {
    IsGroupChat(ChatOf(us[k])) && ChatOf(us[k]).value.id !in SeenIds(us[..k])
  }

  /** The group list of a sequence of updates: one entry per first
      occurrence of a group chat id, in order. */
  function Groups(us: seq<Update>): seq<GroupEntry>
    decreases |us|
  {
    if us == [] then []
    else
      var k := |us| - 1;
      Groups(us[..k]) + (if FirstAt(us, k) then [EntryOf(ChatOf(us[k]).value)] else [])
  }

  /** The list `get_group_ids` returns for a reply: empty when the request
      failed or `ok` is false, and a missing `result` counts as empty. */
  function GroupsOfReply(reply: Reply): (gs: seq<GroupEntry>)
    ensures reply.RequestFailed? ==> gs == []
    ensures reply.Received? && !reply.response.ok ==> gs == []
    ensures reply.Received? && reply.response.ok && reply.response.result == None ==> gs == []
  {
    if reply.RequestFailed? || !reply.response.ok then []
    else Groups(reply.response.result.GetOr([]))
  }

  /** `get_group_ids`: one pass over the updates with a set of seen ids. */
  method GetGroupIds(reply: Reply) returns (groups: seq<GroupEntry>)
    ensures groups == GroupsOfReply(reply)
  {
    if reply.RequestFailed? || !reply.response.ok {
      return [];
    }
    var results := reply.response.result.GetOr([]);
    groups := [];
    var seen: set<Option<int>> := {};
    for i := 0 to |results|
      invariant groups == Groups(results[..i])
      invariant seen == SeenIds(results[..i])
    {
      var upd := results[i];
      var chat: Option<Chat> := None;
      if upd.message.Some? {
        chat := upd.message.value.chat;
      } else if upd.myChatMember.Some? {
        chat := upd.myChatMember.value.chat;
      }
      assert results[..i + 1][..i] == results[..i];
      SeenSnoc(results[..i], upd);
      assert results[..i + 1] == results[..i] + [upd];
      if chat.Some? && (chat.value.kind == Some("group") || chat.value.kind == Some("supergroup")) {
        var cid := chat.value.id;
        if cid !in seen {
          seen := seen + {cid};
          groups := groups + [GroupEntry(cid, chat.value.title.GetOr("?"), chat.value.kind.value)];
        }
      }
    }
    assert results[..|results|] == results;
  }

  /** Adding one update adds its chat's id when it is a group chat. */
  lemma SeenSnoc(us: seq<Update>, u: Update)
    ensures SeenIds(us + [u])
         == SeenIds(us) + (if IsGroupChat(ChatOf(u)) then {ChatOf(u).value.id} else {})
  {
    var e := us + [u];
    assert forall k | 0 <= k < |us| :: e[k] == us[k];
    assert e[|us|] == u;
    forall x | x in SeenIds(e)
      ensures x in SeenIds(us) + (if IsGroupChat(ChatOf(u)) then {ChatOf(u).value.id} else {})
    {
      var k :| 0 <= k < |e| && IsGroupChat(ChatOf(e[k])) && ChatOf(e[k]).value.id == x;
      if k < |us| {
        assert ChatOf(us[k]).value.id in SeenIds(us);
      }
    }
  }

  /** Every entry is a group or supergroup. */
  lemma {:induction false} GroupsAreGroups(us: seq<Update>)
    ensures forall i | 0 <= i < |Groups(us)| :: Groups(us)[i].kind in {"group", "supergroup"}
    decreases |us|
  {
    if us != [] {
      GroupsAreGroups(us[..|us| - 1]);
    }
  }

  /** The ids in the list are exactly the group chat ids of the updates. */
  lemma {:induction false} GroupIdsAreSeen(us: seq<Update>)
    ensures forall i | 0 <= i < |Groups(us)| :: Groups(us)[i].id in SeenIds(us)
    ensures forall x | x in SeenIds(us) :: exists i | 0 <= i < |Groups(us)| :: Groups(us)[i].id == x
    decreases |us|
  {
    if us != [] {
      var k := |us| - 1;
      var p := us[..k];
      GroupIdsAreSeen(p);
      SeenSnoc(p, us[k]);
      assert us == p + [us[k]];
      var gp := Groups(p);
      var g := Groups(us);
      assert forall i | 0 <= i < |gp| :: g[i] == gp[i];
      forall x | x in SeenIds(us) ensures exists i | 0 <= i < |g| :: g[i].id == x {
        if x in SeenIds(p) {
          var i :| 0 <= i < |gp| && gp[i].id == x;
          assert g[i].id == x;
        } else {
          assert g[|gp|].id == x;
        }
      }
    }
  }

  /** No two entries share an id. */
  lemma {:induction false} GroupsDistinct(us: seq<Update>)
    ensures forall i, j | 0 <= i < j < |Groups(us)| :: Groups(us)[i].id != Groups(us)[j].id
    decreases |us|
  {
    if us != [] {
      var k := |us| - 1;
      var p := us[..k];
      GroupsDistinct(p);
      GroupIdsAreSeen(p);
      var gp := Groups(p);
      var g := Groups(us);
      assert forall i | 0 <= i < |gp| :: g[i] == gp[i];
    }
  }

  /** The list of a prefix of the updates is a prefix of the list. */
  lemma {:induction false} GroupsPrefix(us: seq<Update>, m: nat)
    requires m <= |us|
    ensures Groups(us[..m]) <= Groups(us)
    decreases |us|
  {
    if m < |us| {
      var k := |us| - 1;
      assert us[..k][..m] == us[..m];
      GroupsPrefix(us[..k], m);
    } else {
      assert us[..m] == us;
    }
  }

  /** Where the entry of a first occurrence lands: after the entries of all
      earlier updates. */
  function Place(us: seq<Update>, k: nat): nat
    requires k <= |us|
  {
    |Groups(us[..k])|
  }

  /** Completeness and order: the first occurrence of every group chat id
      yields its entry, and first occurrences appear in the order of the
      updates. */
  lemma FirstOccurrencesInOrder(us: seq<Update>, k1: nat, k2: nat)
    requires k1 < k2 < |us| && FirstAt(us, k1) && FirstAt(us, k2)
    ensures Place(us, k1) < Place(us, k2) < |Groups(us)|
    ensures Groups(us)[Place(us, k1)] == EntryOf(ChatOf(us[k1]).value)
    ensures Groups(us)[Place(us, k2)] == EntryOf(ChatOf(us[k2]).value)
  {
    FirstOccurrenceEntry(us, k1);
    FirstOccurrenceEntry(us, k2);
    assert us[..k2][..k1 + 1] == us[..k1 + 1];
    GroupsPrefix(us[..k2], k1 + 1);
  }

  /** The entry of a first occurrence at position k is at Place(us, k). */
  lemma FirstOccurrenceEntry(us: seq<Update>, k: nat)
    requires k < |us| && FirstAt(us, k)
    ensures Place(us, k) < |Groups(us)|
    ensures Groups(us)[Place(us, k)] == EntryOf(ChatOf(us[k]).value)
    ensures |Groups(us[..k + 1])| == Place(us, k) + 1
  {
    var q := us[..k + 1];
    assert q[..k] == us[..k];
    assert q[k] == us[k];
    assert FirstAt(q, k);
    assert Groups(q) == Groups(us[..k]) + [EntryOf(ChatOf(us[k]).value)];
    GroupsPrefix(us, k + 1);
  }

  /** Only the chat of each update matters to the list. */
  lemma {:induction false} GroupsOnlySeeChats(us: seq<Update>, ws: seq<Update>)
    requires |us| == |ws|
    requires forall k | 0 <= k < |us| :: ChatOf(us[k]) == ChatOf(ws[k])
    ensures Groups(us) == Groups(ws)
    decreases |us|
  {
    if us != [] {
      var k := |us| - 1;
      GroupsOnlySeeChats(us[..k], ws[..k]);
      assert SeenIds(us[..k]) == SeenIds(ws[..k]);
    }
  }

  /** Message precedence: when an update has a message, its member-change
      part is ignored, whatever it holds. */
  lemma MessageShadowsMember(us: seq<Update>, k: nat, other: Option<Envelope>)
    requires k < |us| && us[k].message.Some?
    ensures Groups(us[k := us[k].(myChatMember := other)]) == Groups(us)
  {
    var ws := us[k := us[k].(myChatMember := other)];
    assert ChatOf(ws[k]) == ChatOf(us[k]);
    GroupsOnlySeeChats(us, ws);
  }

  /** `TelegramNotifier.get_chat_id` over the updates, newest first. A
      missing `chat` or `id` raises KeyError inside the `try`, which ends the
      search with no id. */
  function LatestFrom(us: seq<Update>): (r: Option<int>)
    decreases |us|
  {
    if us == [] then None
    else
      var u := us[|us| - 1];
      if !HasEnvelope(u) then LatestFrom(us[..|us| - 1])
      else match ChatOf(u)
        case None => None
        case Some(c) =>
          if IsGroupChat(Some(c)) then c.id
          else LatestFrom(us[..|us| - 1])
  }

  /** `get_chat_id` on a reply: nothing unless `ok` and a non-empty `result`. */
  function LatestGroupChatId(reply: Reply): (r: Option<int>)
    ensures r.Some? ==> reply.Received? && reply.response.ok
                        && reply.response.result.Some? && reply.response.result.value != []
  {
    if reply.Received? && reply.response.ok && reply.response.result.Some?
       && reply.response.result.value != []
    then LatestFrom(reply.response.result.value)
    else None
  }

  /** A chosen id belongs to the newest group chat of the updates, and is
      therefore also listed by `get_group_ids`. */
  lemma {:induction false} LatestIsNewestGroup(us: seq<Update>)
    requires LatestFrom(us).Some?
    ensures exists k | 0 <= k < |us| ::
              && IsGroupChat(ChatOf(us[k])) && ChatOf(us[k]).value.id == LatestFrom(us)
              && (forall j | k < j < |us| :: !IsGroupChat(ChatOf(us[j])))
    ensures LatestFrom(us) in SeenIds(us)
    decreases |us|
  {
    var n := |us| - 1;
    var u := us[n];
    if HasEnvelope(u) && IsGroupChat(ChatOf(u)) {
      assert IsGroupChat(ChatOf(us[n])) && ChatOf(us[n]).value.id == LatestFrom(us);
    } else {
      var p := us[..n];
      LatestIsNewestGroup(p);
      var k :| 0 <= k < |p| && IsGroupChat(ChatOf(p[k])) && ChatOf(p[k]).value.id == LatestFrom(p)
               && (forall j | k < j < |p| :: !IsGroupChat(ChatOf(p[j])));
      assert us[k] == p[k];
      assert forall j | k < j < |us| :: !IsGroupChat(ChatOf(us[j])) by {
        forall j | k < j < |us| ensures !IsGroupChat(ChatOf(us[j])) {
          if j < n {
            assert us[j] == p[j];
          }
        }
      }
    }
  }

  /** Every envelope names its chat and every group chat has an id. */
  predicate WellFormed(u: Update) {
    (HasEnvelope(u) ==> ChatOf(u).Some?) && (IsGroupChat(ChatOf(u)) ==> ChatOf(u).value.id.Some?)
  }

  /** On well-formed updates `get_chat_id` finds an id exactly when there is
      a group chat, and then it is the id of the newest one. */
  lemma {:induction false} LatestFindsGroup(us: seq<Update>)
    requires forall k | 0 <= k < |us| :: WellFormed(us[k])
    ensures LatestFrom(us).Some? <==> exists k | 0 <= k < |us| :: IsGroupChat(ChatOf(us[k]))
    decreases |us|
  {
    if us != [] {
      var n := |us| - 1;
      var p := us[..n];
      assert forall k | 0 <= k < |p| :: p[k] == us[k];
      LatestFindsGroup(p);
      if !IsGroupChat(ChatOf(us[n])) {
        if exists k | 0 <= k < |us| :: IsGroupChat(ChatOf(us[k])) {
          var k :| 0 <= k < |us| && IsGroupChat(ChatOf(us[k]));
          assert k < n && IsGroupChat(ChatOf(p[k]));
        }
      }
    }
  }
}
