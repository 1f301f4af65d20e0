/** Where the two servers answer the same request differently. Each lemma fixes one
    request and states what each version does with it. */
module Divergence {
  import opened Wrappers
  import opened JavaString
  import opened Groups
  import opened Messages
  import opened ServerState
  import GroupManager
  import BroadcastService
  import MessageHandler
  import ClientHandler
  import ChatServer

  /** GET_ONLINE_USERS before login: the refactored server sends to the user named
      `null` and throws; the monolithic one answers on the requester's own stream. */
  lemma OnlineUsersBeforeLogin(s: State)
    requires Valid(s)
    ensures BroadcastService.SendOnlineUsersToUser(s.online, None) == Emit([], true)
    ensures !ChatServer.SendOnlineUsers(s).fault && |ChatServer.SendOnlineUsers(s).out| == 1
  {
  }

  /** An unknown group in GROUP_CHAT: the refactored notice names the requested id, the
      monolithic one always says "null"; the two agree only for the id "null". */
  lemma {:induction false} MissingGroupNotices(s: State, m: Message, u: Option<string>)
    requires Valid(s) && m.receiver.Some? && m.receiver.value !in s.groups.entries
    ensures (MessageHandler.HandleGroupChat(s, m, u) == ChatServer.HandleGroupChat(s, m, u))
              == (m.receiver.value == "null")
  {
    var id := m.receiver.value;
    var p, q := "群组 ", " 不存在！";
    assert ChatServer.GroupMissing == p + "null" + q;
    if p + id + q == p + "null" + q {
      assert |id| == 4;
      assert id == (p + id + q)[|p|..|p| + |id|];
      assert "null" == (p + "null" + q)[|p|..|p| + 4];
    }
    assert MessageHandler.HandleGroupChat(s, m, u).out == Reply(Notice(GroupChat, u, p + id + q));
    assert ChatServer.HandleGroupChat(s, m, u).out == Reply(Notice(GroupChat, u, p + "null" + q));
    if MessageHandler.HandleGroupChat(s, m, u) == ChatServer.HandleGroupChat(s, m, u) {
      assert Reply(Notice(GroupChat, u, p + id + q))[0].msg.content == Some(p + id + q);
      assert Reply(Notice(GroupChat, u, p + "null" + q))[0].msg.content == Some(p + "null" + q);
    }
  }

  /** FILE_GROUP addressed by a group id that no group has as its name: the refactored
      server, which looks the target up by name, reports it missing; the monolithic one,
      which looks it up by id, delivers the file to the group. */
  lemma GroupFileById(s: State, m: Message, u: Option<string>)
    requires Valid(s) && !GroupManager.HasNullName(s.groups)
    requires m.receiver.Some? && m.receiver.value in s.groups.entries
    requires forall id | id in s.groups.entries :: s.groups.entries[id].name != m.receiver
    ensures MessageHandler.HandleGroupFile(s, m, u)
              == Emit(Reply(Notice(GroupChat, u, "群组 " + m.receiver.value + " 不存在，文件发送失败！")), false)
    ensures MessageHandler.FansOutTo(ChatServer.HandleGroupFile(s, m, u),
              s.groups.entries[m.receiver.value].members, u, s.online, m)
  {
  }

  /** SHAKE to a target that is neither an online user nor a group: the refactored
      server sends nothing at all, the monolithic one tells the requester. */
  lemma ShakeUnknownTarget(s: State, m: Message, u: Option<string>)
    requires Valid(s) && !GroupManager.HasNullName(s.groups)
    requires m.receiver.Some? && m.receiver.value !in s.online.entries && m.receiver.value !in s.groups.entries
    requires forall id | id in s.groups.entries :: s.groups.entries[id].name != m.receiver
    ensures MessageHandler.HandleShake(s, m, u) == Emit([], false)
    ensures ChatServer.HandleShake(s, m, u)
              == Emit(Reply(Notice(PrivateChat, u, "目标 " + m.receiver.value + " 不存在，抖动发送失败！")), false)
  {
  }

  /** CREATE_GROUP with an empty name: the refactored server creates a group called "",
      the monolithic one refuses and changes nothing. */
  lemma CreateWithEmptyName(s: State, m: Message, u: Option<string>, newId: string)
    requires Valid(s) && newId !in s.groups.entries
    requires m.content == Some("") && m.groupName == Some("")
    ensures newId in MessageHandler.HandleCreateGroup(s, m, u, newId).state.groups.entries
    ensures MessageHandler.HandleCreateGroup(s, m, u, newId).state.groups.entries[newId].name == Some("")
    ensures ChatServer.HandleCreateGroup(s, m, u, newId)
              == Effect(s, Reply(Notice(CreateGroup, u, ChatServer.NameRequired)), false)
  {
  }

  /** SEARCH_GROUP whose keyword and group id are both the full name of a group, a name
      that is no group's id: the refactored server, which searches names by keyword, finds
      that group; the monolithic one, which looks the id up exactly, reports none. */
  lemma {:induction false} SearchByKeywordVsId(s: State, m: Message, u: Option<string>, gid: string)
    requires Valid(s) && !GroupManager.HasNullName(s.groups)
    requires m.content.Some? && m.groupId == m.content && m.content.value !in s.groups.entries
    requires gid in s.groups.entries && s.groups.entries[gid].name == m.content
    ensures GroupManager.SearchGroups(s.groups, m.content).Returned?
    ensures s.groups.entries[gid] in GroupManager.SearchGroups(s.groups, m.content).value
    ensures MessageHandler.HandleSearchGroup(s, m)
              == Emit(Reply(Notice(GroupChat, Some(""),
                   MessageHandler.SearchText(m.content, GroupManager.SearchGroups(s.groups, m.content).value))), false)
    ensures ChatServer.HandleSearchGroup(s, m, u)
              == Emit(Reply(Notice(SearchGroup, u, "未找到群ID为" + m.content.value + "的群聊！")), false)
  {
    var k := m.content.value;
    assert OccursAt(k, k, 0);
    assert Contains(k, k);
  }

  /** JOIN_GROUP by a member of the group: neither server changes the group, but the
      refactored one reports success while the monolithic one says "already joined"
      and broadcasts nothing. */
  lemma {:induction false} JoinWhenMember(s: State, m: Message, u: Option<string>)
    requires Valid(s) && m.receiver == m.groupId && m.groupId.Some?
    requires m.groupId.value in s.groups.entries && u in s.groups.entries[m.groupId.value].members
    ensures MessageHandler.HandleJoinGroup(s, m, u)
              == Effect(s, Reply(Notice(GroupChat, u,
                   "成功加入群组[" + Show(s.groups.entries[m.groupId.value].name) + "]！")), false)
    ensures ChatServer.HandleJoinGroup(s, m, u) == Effect(s, Reply(Notice(JoinGroup, u, ChatServer.JoinAlready)), false)
  {
    var id := m.groupId.value;
    var g := s.groups.entries[id];
    var g' := GroupManager.JoinGroup(s.groups, id, u).0;
    AddMemberIdempotent(g, u);
    assert g'.entries == s.groups.entries by {
      forall k | k in s.groups.entries ensures g'.entries[k] == s.groups.entries[k] {
        if k == id { assert g'.entries[k] == AddMember(g, u); }
      }
    }
    assert g' == s.groups;
  }
}
