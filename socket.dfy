/**
 * The WebSocket side of the chat server: every accepted socket carries its own
 * `userId`, starting at `null`; an `auth` frame sets it from the token verifier's
 * verdict, and a `message` frame from a socket with a truthy `userId` is sent to
 * every client of the server whose `readyState` is OPEN.
 *
 * The pure function `React` says what handling one frame does; the class
 * `ChatServer` holds the connection registry and the outbox of sent frames, and
 * its method `HandleFrame` carries out the broadcast loop and is proved to do
 * what `React` says.
 */
module ChatSocket {
  import opened Json

  /** Identity of one accepted socket (object identity in the server). */
  type ConnId = nat

  /** The server's view of one socket: whether its readyState is OPEN (1), and its `userId`. */
  datatype Conn = Conn(open: bool, userId: Field)

  /** The value `userId` holds before any successful `auth` frame. */
  const Unauthenticated: Field := Present(JNull)

  /** An inbound payload: text that `JSON.parse` rejects, or the value it produced. */
  datatype Payload = Unparsable | Parsed(value: Json)

  /** What the handler does with a payload. */
  datatype Dispatch =
    | Faulted                         // an exception was thrown and caught; only logged
    | AuthRequest(token: Field)       // `msg.type === 'auth'`
    | ChatRequest(content: Field)     // `msg.type === 'message'`
    | Ignored                         // any other value of `msg.type`

  /** Result of `jwt.verify` on the token: an error, or the decoded payload's `id`. */
  datatype Verdict = Rejected | Accepted(id: Field)

  /** Outbound frames, as the objects passed to `JSON.stringify`. */
  datatype OutFrame =
    | AuthOk
    | AuthFail
    | Chat(senderId: Json, content: Field, createdAt: string)

  /** One `send` call: the frame and the socket it was sent on. */
  datatype Delivery = Delivery(to: ConnId, frame: OutFrame)

  /** New registry and the frames sent while handling one payload. */
  datatype Reaction = Reaction(conns: map<ConnId, Conn>, sent: seq<Delivery>)

  // ---------------------------------------------------------------------------
  // Decoding and dispatch

  /** `msg.type` on a parsed value other than `null`: only an object can have a `type` property. */
  function TypeOf(v: Json): (t: Field)
    ensures t.Present? <==> v.JObj? && "type" in v.fields
    ensures t.Present? ==> t.value == v.fields["type"]
  {
    match v
    case JObj(fields) => Get(fields, "type")
    case _ => Missing
  }

  /**
   * The branch the handler takes: a parse error or a property read on `null`
   * is caught; `auth` and `message` are recognised only as exact strings.
   */
  function Classify(p: Payload): (d: Dispatch)
    ensures d.Faulted? <==> p == Unparsable || p == Parsed(JNull)
    ensures d.AuthRequest? <==> p.Parsed? && TypeOf(p.value) == Present(JStr("auth"))
    ensures d.ChatRequest? <==> p.Parsed? && TypeOf(p.value) == Present(JStr("message"))
    ensures d.AuthRequest? ==> d.token == Get(p.value.fields, "token")
    ensures d.ChatRequest? ==> d.content == Get(p.value.fields, "content")
  {
    match p
    case Unparsable => Faulted
    case Parsed(JNull) => Faulted
    case Parsed(JObj(fields)) =>
      if Get(fields, "type") == Present(JStr("auth")) then AuthRequest(Get(fields, "token"))
      else if Get(fields, "type") == Present(JStr("message")) then ChatRequest(Get(fields, "content"))
      else Ignored
    case Parsed(_) => Ignored
  }

  /** The inbound frames the client sends, as JSON objects. */
  function AuthFrame(token: string): Json
  {
    JObj(map["type" := JStr("auth"), "token" := JStr(token)])
  }

  function MessageFrame(content: string): Json
  {
    JObj(map["type" := JStr("message"), "content" := JStr(content)])
  }

  /** The client's frames are dispatched to the matching branch with their field intact. */
  lemma ClientFramesDispatch(token: string, content: string)
    ensures Classify(Parsed(AuthFrame(token))) == AuthRequest(Present(JStr(token)))
    ensures Classify(Parsed(MessageFrame(content))) == ChatRequest(Present(JStr(content)))
  {
  }

  // ---------------------------------------------------------------------------
  // The broadcast: `wss.clients.forEach(client => if readyState === 1 send(...))`

  /** The clients, in iteration order, whose readyState is OPEN. */
  function OpenClients(clients: seq<ConnId>, conns: map<ConnId, Conn>): (r: seq<ConnId>)
    ensures |r| <= |clients|
  {
    if clients == [] then []
    else
      var last := clients[|clients| - 1];
      OpenClients(clients[..|clients| - 1], conns) + (if last in conns && conns[last].open then [last] else [])
  }

  /** A broadcast's recipients are members of the client set whose readyState is OPEN. */
  lemma {:induction false} OpenClientsAreOpen(clients: seq<ConnId>, conns: map<ConnId, Conn>)
    ensures forall x :: x in OpenClients(clients, conns) ==> x in clients && x in conns && conns[x].open
  {
    if clients != [] {
      var n := |clients| - 1;
      OpenClientsAreOpen(clients[..n], conns);
      assert forall x :: x in clients[..n] ==> x in clients;
    }
  }

  /**
   * One chat frame per recipient, in order; the j-th recipient's `created_at` is
   * the j-th reading of the clock during this broadcast.
   */
  function Fanout(recipients: seq<ConnId>, sender: Json, content: Field, clock: nat -> string): (r: seq<Delivery>)
    ensures |r| == |recipients|
  {
    if recipients == [] then []
    else
      var n := |recipients| - 1;
      Fanout(recipients[..n], sender, content, clock) + [Delivery(recipients[n], Chat(sender, content, clock(n)))]
  }

  /** The j-th frame of a broadcast goes to the j-th recipient, stamped with the j-th clock reading. */
  lemma {:induction false} FanoutAt(recipients: seq<ConnId>, sender: Json, content: Field, clock: nat -> string, j: nat)
    requires j < |recipients|
    ensures Fanout(recipients, sender, content, clock)[j] == Delivery(recipients[j], Chat(sender, content, clock(j)))
  {
    var n := |recipients| - 1;
    if j < n {
      FanoutAt(recipients[..n], sender, content, clock, j);
    }
  }

  /** The frames sent on socket `o`, in the order they were sent. */
  function Inbox(sent: seq<Delivery>, o: ConnId): (r: seq<OutFrame>)
    ensures |r| <= |sent|
  {
    if sent == [] then []
    else
      var last := sent[|sent| - 1];
      Inbox(sent[..|sent| - 1], o) + (if last.to == o then [last.frame] else [])
  }

  lemma OpenClientsSnoc(s: seq<ConnId>, x: ConnId, conns: map<ConnId, Conn>)
    ensures OpenClients(s + [x], conns) ==
              OpenClients(s, conns) + (if x in conns && conns[x].open then [x] else [])
  {
    assert (s + [x])[..|s|] == s;
  }

  lemma FanoutSnoc(recipients: seq<ConnId>, x: ConnId, sender: Json, content: Field, clock: nat -> string)
    ensures Fanout(recipients + [x], sender, content, clock) ==
              Fanout(recipients, sender, content, clock) + [Delivery(x, Chat(sender, content, clock(|recipients|)))]
  {
    assert (recipients + [x])[..|recipients|] == recipients;
  }

  /** One turn of the broadcast loop extends the recipients and the frames by the next open client. */
  lemma BroadcastStep(members: seq<ConnId>, i: nat, conns: map<ConnId, Conn>,
                      sender: Json, content: Field, clock: nat -> string)
    requires i < |members|
    ensures var before := OpenClients(members[..i], conns);
            var x := members[i];
            if x in conns && conns[x].open then
              OpenClients(members[..i + 1], conns) == before + [x] &&
              Fanout(before + [x], sender, content, clock) ==
                Fanout(before, sender, content, clock) + [Delivery(x, Chat(sender, content, clock(|before|)))]
            else OpenClients(members[..i + 1], conns) == before
  {
    assert members[..i + 1] == members[..i] + [members[i]];
    OpenClientsSnoc(members[..i], members[i], conns);
    FanoutSnoc(OpenClients(members[..i], conns), members[i], sender, content, clock);
  }

  /** A client set holds each socket once. */
  predicate NoDuplicates(s: seq<ConnId>)
  {
    forall i, j :: 0 <= i < j < |s| ==> s[i] != s[j]
  }

  // ---------------------------------------------------------------------------
  // Handling one frame

  /**
   * What handling one dispatched payload on socket `c` does to the registry and
   * which frames it sends. The verdict is consulted only for `auth` frames and
   * the clock only by the broadcast.
   */
  function React(conns: map<ConnId, Conn>, clients: seq<ConnId>, c: ConnId, d: Dispatch,
                 verdict: Verdict, clock: nat -> string): (r: Reaction)
    requires c in conns
    ensures r.conns.Keys == conns.Keys
    ensures forall o :: o in conns && o != c ==> r.conns[o] == conns[o]
    ensures r.conns[c].open == conns[c].open
    ensures !(d.AuthRequest? && verdict.Accepted?) ==> r.conns == conns
    ensures d.AuthRequest? && verdict.Accepted? ==> r.conns[c].userId == verdict.id
    ensures d.AuthRequest? ==> r.sent == [Delivery(c, if verdict.Accepted? then AuthOk else AuthFail)]
    ensures (d.Faulted? || d.Ignored?) ==> r.sent == []
    ensures d.ChatRequest? && !Truthy(conns[c].userId) ==> r.sent == []
  {
    match d
    case AuthRequest(_) =>
      (match verdict
       case Rejected => Reaction(conns, [Delivery(c, AuthFail)])
       case Accepted(id) => Reaction(conns[c := conns[c].(userId := id)], [Delivery(c, AuthOk)]))
    case ChatRequest(content) =>
      if Truthy(conns[c].userId) then
        Reaction(conns, Fanout(OpenClients(clients, conns), conns[c].userId.value, content, clock))
      else Reaction(conns, [])
    case _ => Reaction(conns, [])
  }

  // ---------------------------------------------------------------------------
  // Lemmas about the broadcast

  lemma {:induction false} InboxAppend(a: seq<Delivery>, b: seq<Delivery>, o: ConnId)
    ensures Inbox(a + b, o) == Inbox(a, o) + Inbox(b, o)
    decreases |b|
  {
    if b == [] {
      assert a + b == a;
    } else {
      var n := |b| - 1;
      assert (a + b)[..|a + b| - 1] == a + b[..n];
      InboxAppend(a, b[..n], o);
    }
  }

  /** Socket `o` receives one chat frame per occurrence among the recipients, each carrying sender and content. */
  lemma {:induction false} FanoutInbox(recipients: seq<ConnId>, sender: Json, content: Field,
                                       clock: nat -> string, o: ConnId)
    ensures |Inbox(Fanout(recipients, sender, content, clock), o)| == multiset(recipients)[o]
    ensures forall f :: f in Inbox(Fanout(recipients, sender, content, clock), o) ==>
              f.Chat? && f.senderId == sender && f.content == content
  {
    if recipients != [] {
      var n := |recipients| - 1;
      var front := Fanout(recipients[..n], sender, content, clock);
      var last := Delivery(recipients[n], Chat(sender, content, clock(n)));
      FanoutInbox(recipients[..n], sender, content, clock, o);
      InboxAppend(front, [last], o);
      assert [last][..0] == [];
      assert recipients == recipients[..n] + [recipients[n]];
      assert multiset(recipients) == multiset(recipients[..n]) + multiset{recipients[n]};
    }
  }

  /** The clients a broadcast reaches: exactly the open ones in the client set, each as often as it occurs. */
  lemma {:induction false} OpenClientsCount(clients: seq<ConnId>, conns: map<ConnId, Conn>, o: ConnId)
    ensures multiset(OpenClients(clients, conns))[o] ==
              if o in conns && conns[o].open then multiset(clients)[o] else 0
  {
    if clients != [] {
      var n := |clients| - 1;
      OpenClientsCount(clients[..n], conns, o);
      assert clients == clients[..n] + [clients[n]];
      assert multiset(clients) == multiset(clients[..n]) + multiset{clients[n]};
    }
  }

  /** In a set-like sequence each member occurs exactly once. */
  lemma {:induction false} NoDuplicatesCount(s: seq<ConnId>, o: ConnId)
    requires NoDuplicates(s)
    ensures multiset(s)[o] == if o in s then 1 else 0
  {
    if s != [] {
      var n := |s| - 1;
      assert NoDuplicates(s[..n]);
      NoDuplicatesCount(s[..n], o);
      assert s == s[..n] + [s[n]];
      assert multiset(s) == multiset(s[..n]) + multiset{s[n]};
      assert o == s[n] ==> o !in s[..n];
    }
  }

  /**
   * A `message` frame from a socket with a truthy `userId` sends exactly one frame to
   * every client whose readyState is OPEN (authenticated or not, the sender included)
   * and none to any other socket; each carries the sender's `userId` and the inbound
   * `content` unchanged.
   */
  lemma ChatReachesEachOpenClientOnce(conns: map<ConnId, Conn>, clients: seq<ConnId>, c: ConnId,
                                      content: Field, verdict: Verdict, clock: nat -> string, o: ConnId)
    requires c in conns && Truthy(conns[c].userId)
    requires NoDuplicates(clients)
    ensures var inbox := Inbox(React(conns, clients, c, ChatRequest(content), verdict, clock).sent, o);
            |inbox| == (if o in clients && o in conns && conns[o].open then 1 else 0) &&
            forall f :: f in inbox ==> f.Chat? && f.senderId == conns[c].userId.value && f.content == content
  {
    var recipients := OpenClients(clients, conns);
    FanoutInbox(recipients, conns[c].userId.value, content, clock, o);
    OpenClientsCount(clients, conns, o);
    NoDuplicatesCount(clients, o);
  }

  /** An `auth` frame answers only its own socket, with exactly one frame. */
  lemma AuthRepliesToSenderOnly(conns: map<ConnId, Conn>, clients: seq<ConnId>, c: ConnId,
                                token: Field, verdict: Verdict, clock: nat -> string, o: ConnId)
    requires c in conns
    ensures var r := React(conns, clients, c, AuthRequest(token), verdict, clock);
            Inbox(r.sent, o) == if o == c then [if verdict.Accepted? then AuthOk else AuthFail] else []
  {
  }

  /** A payload that does not parse, or whose `type` is neither `auth` nor `message`, sends nothing and changes nothing. */
  lemma MalformedOrUnknownIsInert(conns: map<ConnId, Conn>, clients: seq<ConnId>, c: ConnId,
                                  p: Payload, verdict: Verdict, clock: nat -> string)
    requires c in conns
    requires p.Unparsable? || TypeOf(p.value) !in {Present(JStr("auth")), Present(JStr("message"))}
    ensures React(conns, clients, c, Classify(p), verdict, clock) == Reaction(conns, [])
  {
  }

  /** A `message` frame on a socket whose `userId` is falsy sends nothing and changes nothing. */
  lemma UnauthenticatedChatIsInert(conns: map<ConnId, Conn>, clients: seq<ConnId>, c: ConnId,
                                   content: Field, verdict: Verdict, clock: nat -> string)
    requires c in conns && !Truthy(conns[c].userId)
    ensures React(conns, clients, c, ChatRequest(content), verdict, clock) == Reaction(conns, [])
  {
  }

  /** A failed `auth` leaves the socket's `userId` as it was, an authenticated one included. */
  lemma FailedAuthKeepsUserId(conns: map<ConnId, Conn>, clients: seq<ConnId>, c: ConnId,
                              token: Field, clock: nat -> string)
    requires c in conns
    ensures React(conns, clients, c, AuthRequest(token), Rejected, clock).conns == conns
  {
  }

  /** A second successful `auth` overwrites the `userId` bound by the first. */
  lemma ReauthOverwrites(conns: map<ConnId, Conn>, clients: seq<ConnId>, c: ConnId,
                         t1: Field, t2: Field, id1: Field, id2: Field, clock: nat -> string)
    requires c in conns
    ensures var first := React(conns, clients, c, AuthRequest(t1), Accepted(id1), clock).conns;
            React(first, clients, c, AuthRequest(t2), Accepted(id2), clock).conns[c].userId == id2
  {
  }

  /** A socket none of whose `send` calls is on `o` sent nothing to it. */
  lemma {:induction false} InboxNone(sent: seq<Delivery>, o: ConnId)
    requires forall i :: 0 <= i < |sent| ==> sent[i].to != o
    ensures Inbox(sent, o) == []
  {
    if sent != [] {
      InboxNone(sent[..|sent| - 1], o);
    }
  }

  /** When exactly one `send` is on `o`, that frame is all `o` was sent. */
  lemma {:induction false} InboxSingle(sent: seq<Delivery>, j: nat, o: ConnId)
    requires j < |sent| && sent[j].to == o
    requires forall i :: 0 <= i < |sent| && i != j ==> sent[i].to != o
    ensures Inbox(sent, o) == [sent[j].frame]
  {
    var n := |sent| - 1;
    if j == n {
      InboxNone(sent[..n], o);
    } else {
      InboxSingle(sent[..n], j, o);
    }
  }

  /** The recipients of a broadcast are distinct when the client set is. */
  lemma {:induction false} OpenClientsNoDuplicates(clients: seq<ConnId>, conns: map<ConnId, Conn>)
    requires NoDuplicates(clients)
    ensures NoDuplicates(OpenClients(clients, conns))
  {
    if clients != [] {
      var n := |clients| - 1;
      assert NoDuplicates(clients[..n]);
      OpenClientsNoDuplicates(clients[..n], conns);
      OpenClientsAreOpen(clients[..n], conns);
      assert clients[n] !in clients[..n];
    }
  }

  /**
   * The j-th OPEN client of the client set is sent exactly one frame: the chat frame
   * stamped with the j-th clock reading of the broadcast.
   */
  lemma OpenClientReceivesStampedChat(conns: map<ConnId, Conn>, clients: seq<ConnId>, c: ConnId,
                                      content: Field, verdict: Verdict, clock: nat -> string, j: nat)
    requires c in conns && Truthy(conns[c].userId)
    requires NoDuplicates(clients)
    requires j < |OpenClients(clients, conns)|
    ensures var recipients := OpenClients(clients, conns);
            Inbox(React(conns, clients, c, ChatRequest(content), verdict, clock).sent, recipients[j]) ==
              [Chat(conns[c].userId.value, content, clock(j))]
  {
    var recipients := OpenClients(clients, conns);
    OpenClientsNoDuplicates(clients, conns);
    var sender := conns[c].userId.value;
    var sent := Fanout(recipients, sender, content, clock);
    forall i | 0 <= i < |sent|
      ensures sent[i] == Delivery(recipients[i], Chat(sender, content, clock(i)))
    {
      FanoutAt(recipients, sender, content, clock, i);
    }
    InboxSingle(sent, j, recipients[j]);
  }

  /**
   * An OPEN socket that never authenticated is still sent every chat: exactly one
   * frame, with the sender's `userId`, the content, and the clock reading for its
   * position among the OPEN clients.
   */
  lemma UnauthenticatedListenerReceives(conns: map<ConnId, Conn>, clients: seq<ConnId>, c: ConnId,
                                        content: Field, verdict: Verdict, clock: nat -> string, o: ConnId)
    requires c in conns && Truthy(conns[c].userId)
    requires NoDuplicates(clients)
    requires o in clients && o in conns && conns[o].open && !Truthy(conns[o].userId)
    ensures var recipients := OpenClients(clients, conns);
            o in recipients &&
            forall j :: 0 <= j < |recipients| && recipients[j] == o ==>
              Inbox(React(conns, clients, c, ChatRequest(content), verdict, clock).sent, o) ==
                [Chat(conns[c].userId.value, content, clock(j))]
  {
    var recipients := OpenClients(clients, conns);
    OpenClientsCount(clients, conns, o);
    NoDuplicatesCount(clients, o);
    assert multiset(recipients)[o] == 1;
    forall j | 0 <= j < |recipients| && recipients[j] == o
      ensures Inbox(React(conns, clients, c, ChatRequest(content), verdict, clock).sent, o) ==
                [Chat(conns[c].userId.value, content, clock(j))]
    {
      OpenClientReceivesStampedChat(conns, clients, c, content, verdict, clock, j);
    }
  }

  // ---------------------------------------------------------------------------
  // The server object

  /** The WebSocket server: its client set, each socket's state and every frame sent so far. */
  class ChatServer {
    var conns: map<ConnId, Conn>
    var clients: seq<ConnId>     // `wss.clients`, in iteration (insertion) order
    var outbox: seq<Delivery>
    var nextId: ConnId

    /** The client set and the registry hold the same sockets, each once; ids not yet issued are free. */
    ghost predicate Valid()
      reads this
    {
      NoDuplicates(clients) &&
      (forall o :: o in conns <==> o in clients) &&
      (forall o :: o in conns ==> o < nextId)
    }

    constructor ()
      ensures Valid()
      ensures conns == map[] && clients == [] && outbox == []
    {
      conns := map[];
      clients := [];
      outbox := [];
      nextId := 0;
    }

    /** A socket is accepted: it joins the client set, OPEN, with `userId` still `null`. */
    method Accept() returns (id: ConnId)
      requires Valid()
      modifies this
      ensures Valid()
      ensures id !in old(conns)
      ensures conns == old(conns)[id := Conn(true, Unauthenticated)]
      ensures clients == old(clients) + [id]
      ensures outbox == old(outbox)
    {
      id := nextId;
      assert id !in clients;
      conns := conns[id := Conn(true, Unauthenticated)];
      clients := clients + [id];
      nextId := nextId + 1;
    }

    /** The transport leaves the OPEN state; the socket stops receiving broadcasts. */
    method Close(id: ConnId)
      requires Valid() && id in conns
      modifies this
      ensures Valid()
      ensures conns == old(conns)[id := old(conns)[id].(open := false)]
      ensures clients == old(clients) && outbox == old(outbox) && nextId == old(nextId)
    {
      conns := conns[id := conns[id].(open := false)];
    }

    /**
     * The `message` event handler of socket `c`. Returns whether the error branch
     * (which only logs) was taken.
     */
    method HandleFrame(c: ConnId, payload: Payload, verdict: Verdict, clock: nat -> string) returns (logged: bool)
      requires Valid() && c in conns
      modifies this
      ensures Valid()
      ensures logged <==> Classify(payload).Faulted?
      ensures conns == React(old(conns), old(clients), c, Classify(payload), verdict, clock).conns
      ensures outbox == old(outbox) + React(old(conns), old(clients), c, Classify(payload), verdict, clock).sent
      ensures clients == old(clients) && nextId == old(nextId)
    {
      logged := false;
      var d := Classify(payload);
      match d {
        case Faulted =>
          logged := true;
        case Ignored =>
        case AuthRequest(_) =>
          match verdict {
            case Rejected =>
              outbox := outbox + [Delivery(c, AuthFail)];
            case Accepted(id) =>
              conns := conns[c := conns[c].(userId := id)];
              outbox := outbox + [Delivery(c, AuthOk)];
          }
        case ChatRequest(content) =>
          if Truthy(conns[c].userId) {
            Broadcast(conns[c].userId.value, content, clock);
          }
      }
    }

    /**
     * `wss.clients.forEach`: every client whose readyState is OPEN is sent one chat
     * frame, stamped with a fresh reading of the clock.
     */
    method Broadcast(sender: Json, content: Field, clock: nat -> string)
      modifies this`outbox
      ensures outbox == old(outbox) + Fanout(OpenClients(clients, conns), sender, content, clock)
    {
      var members, registry := clients, conns;
      var i, k := 0, 0;
      while i < |members|
        invariant 0 <= i <= |members|
        invariant k == |OpenClients(members[..i], registry)|
        invariant outbox == old(outbox) + Fanout(OpenClients(members[..i], registry), sender, content, clock)
      {
        var client := members[i];
        BroadcastStep(members, i, registry, sender, content, clock);
        if client in registry && registry[client].open {
          outbox := outbox + [Delivery(client, Chat(sender, content, clock(k)))];
          k := k + 1;
        }
        i := i + 1;
      }
      assert members[..|members|] == members;
    }
  }

  /** Two sockets connect and authenticate; a message from the first reaches both. */
  method ScenarioTwoUsersChat(clock: nat -> string)
  {
    var server := new ChatServer();
    var a := server.Accept();
    var b := server.Accept();
    var logged := server.HandleFrame(a, Parsed(AuthFrame("valid-A")), Accepted(Present(JNum(1.0))), clock);
    logged := server.HandleFrame(b, Parsed(AuthFrame("valid-B")), Accepted(Present(JNum(2.0))), clock);
    assert server.outbox == [Delivery(a, AuthOk), Delivery(b, AuthOk)];
    ghost var conns1, clients1 := server.conns, server.clients;
    ClientFramesDispatch("valid-A", "hi");
    logged := server.HandleFrame(a, Parsed(MessageFrame("hi")), Rejected, clock);
    ghost var sent := React(conns1, clients1, a, ChatRequest(Present(JStr("hi"))), Rejected, clock).sent;
    ChatReachesEachOpenClientOnce(conns1, clients1, a, Present(JStr("hi")), Rejected, clock, a);
    ChatReachesEachOpenClientOnce(conns1, clients1, a, Present(JStr("hi")), Rejected, clock, b);
    assert |Inbox(sent, a)| == 1 && |Inbox(sent, b)| == 1;
    assert forall f :: f in Inbox(sent, b) ==> f.Chat? && f.senderId == JNum(1.0);
  }
}
