/**
  The chatroom server's routing state machine: the registry of connected
  clients by user name, username negotiation, broadcast, the command
  protocol (`/quit`, `/whisper`, `/list`), disconnection and shutdown.

  A connection is a `ClientHandler` object. Its `outbox` is every frame the
  server has written to it, in order, and its `input` holds the frames its
  peer has sent that the server has not read yet. Each server operation is one
  atomic step over the registry and the outboxes; sends to an open
  connection always succeed.
 */
module ChatServer {
  import opened JavaStrings
  import opened MessageFormatter

  datatype Option<T> = None | Some(value: T)

  /** The prompt a connecting client receives before each name it may choose. */
  const Prompt: string := "Enter a username: "
  /** The frame that tells a client the server has disconnected it. */
  const CloseSentinel: string := "/close"
  const WhisperUsage: string := "whisper with: /whisper <username> <message>\n"
  const ListHeader: string := "connected users: "

  function AlreadyExists(userName: string): string { userName + " already exists\n" }
  function NoSuchUser(userName: string): string { "no user with username: " + userName + "\n" }
  function UnknownCommand(word: string): string { "unknown command: " + word + "\n" }

  predicate StartsWithSlash(s: string) { s != [] && s[0] == '/' }

  /** The tokens of a command frame: never empty, because the frame starts with a slash. */
  function CommandTokens(command: string): (tokens: seq<string>)
    requires StartsWithSlash(command)
    ensures tokens == JavaSplit(command) && tokens != [] && tokens[0] != ""
  {
    FirstToken(command);
    JavaSplit(command)
  }

  /**
    The frames a connecting client receives while the names `rejected` it
    offers are taken: the prompt, then for each of them its rejection and a
    new prompt.
   */
  function Prompts(rejected: seq<string>): seq<string>
  {
    if rejected == [] then [Prompt]
    else Prompts(rejected[..|rejected| - 1]) + [AlreadyExists(rejected[|rejected| - 1]), Prompt]
  }

  /** The position of the first offered name that is not taken, or the number of names when all are taken. */
  function FirstFree(taken: set<string>, offered: seq<string>): (i: nat)
    ensures i <= |offered|
    ensures forall j :: 0 <= j < i ==> offered[j] in taken
    ensures i < |offered| ==> offered[i] !in taken
  {
    if offered == [] || offered[0] !in taken then 0 else 1 + FirstFree(taken, offered[1..])
  }

  /** The first free position is the one where every earlier name is taken and that name is not. */
  lemma {:induction false} FirstFreeAt(taken: set<string>, offered: seq<string>, i: nat)
    requires i <= |offered|
    requires forall j :: 0 <= j < i ==> offered[j] in taken
    requires i < |offered| ==> offered[i] !in taken
    ensures FirstFree(taken, offered) == i
  {
    if i > 0 {
      FirstFreeAt(taken, offered[1..], i - 1);
    }
  }

  /** One more rejected name adds its rejection and a new prompt at the end. */
  lemma PromptsSnoc(rejected: seq<string>, name: string)
    ensures Prompts(rejected + [name]) == Prompts(rejected) + [AlreadyExists(name), Prompt]
  {
    assert (rejected + [name])[..|rejected|] == rejected;
  }

  /**
    One more rejected name during negotiation: the transcript grows by the
    rejection and a new prompt, and the next name, if any, is the next frame.
   */
  lemma NegotiationStep(outbox0: seq<string>, offered: seq<string>, read: nat)
    requires read < |offered|
    ensures outbox0 + Prompts(offered[..read]) + [AlreadyExists(offered[read])] + [Prompt]
            == outbox0 + Prompts(offered[..read + 1])
    ensures read + 1 < |offered| ==>
              offered[read + 1..][0] == offered[read + 1] && offered[read + 1..][1..] == offered[read + 2..]
    ensures read + 1 == |offered| ==> offered[read + 1..] == [] && offered[..read + 1] == offered
  {
    assert offered[..read + 1] == offered[..read] + [offered[read]];
    PromptsSnoc(offered[..read], offered[read]);
    AppendTwo(outbox0, Prompts(offered[..read]), AlreadyExists(offered[read]), Prompt);
  }

  /** Re-association of two frames written after a transcript. */
  lemma AppendTwo(a: seq<string>, b: seq<string>, c: string, d: string)
    ensures a + b + [c] + [d] == a + (b + [c, d])
  {
  }

  /**
    No other frame the server writes is the close sentinel: neither the
    message layouts nor the prompt, the refusals and the `/list` reply. So a
    client receives `/close` only when it is disconnected.
   */
  lemma OnlyDisconnectSendsSentinel(userName: string, message: string, order: seq<string>)
    ensures GlobalMessage(userName, message) != CloseSentinel
    ensures ServerMessage(message) != CloseSentinel
    ensures JoinMessage(userName) != CloseSentinel && LeaveMessage(userName) != CloseSentinel
    ensures WhisperMessage(userName, message) != CloseSentinel
    ensures AlreadyExists(userName) != CloseSentinel && NoSuchUser(userName) != CloseSentinel
    ensures UnknownCommand(message) != CloseSentinel
    ensures WhisperUsage != CloseSentinel && ListLine(order) != CloseSentinel && Prompt != CloseSentinel
  {
    assert EndsWithNewline(AlreadyExists(userName)) && EndsWithNewline(NoSuchUser(userName));
    assert EndsWithNewline(UnknownCommand(message)) && EndsWithNewline(ListLine(order));
    assert Prompt[0] != CloseSentinel[0];
  }

  /** The leave notices for `names`, in order. */
  function Leaves(names: seq<string>): (r: seq<string>)
    ensures |r| == |names|
    ensures forall i :: 0 <= i < |names| ==> r[i] == LeaveMessage(names[i])
  {
    if names == [] then [] else Leaves(names[..|names| - 1]) + [LeaveMessage(names[|names| - 1])]
  }

  /** One more name adds its leave notice at the end. */
  lemma LeavesSnoc(names: seq<string>, name: string)
    ensures Leaves(names + [name]) == Leaves(names) + [LeaveMessage(name)]
  {
    assert (names + [name])[..|names|] == names;
  }

  /** `order` lists every name of `names` exactly once: one order in which a hash map may yield them. */
  ghost predicate IsOrdering(order: seq<string>, names: set<string>)
  {
    && (forall n :: n in names <==> n in order)
    && (forall i, j :: 0 <= i < j < |order| ==> order[i] != order[j])
  }

  /** The `/list` reply for names yielded in `order`. */
  function ListLine(order: seq<string>): string
  {
    ListHeader + SpaceTerminated(order) + "\n"
  }

  /** The whisper body: every token after the target, each followed by one space. */
  method WhisperBody(tokens: seq<string>) returns (body: string)
    requires |tokens| >= 2
    ensures body == SpaceTerminated(tokens[2..])
  {
    body := "";
    var i := 2;
    while i < |tokens|
      invariant 2 <= i <= |tokens|
      invariant body == SpaceTerminated(tokens[2..i])
    {
      assert tokens[2..i + 1][..i - 2] == tokens[2..i];
      body := body + tokens[i] + " ";
      i := i + 1;
    }
    assert tokens[2..i] == tokens[2..];
  }

  /** The `/list` reply: the header, every registered name once followed by a space, and a newline. */
  method UserList(names: set<string>) returns (line: string, ghost order: seq<string>)
    ensures IsOrdering(order, names)
    ensures line == ListLine(order)
  {
    var builder := ListHeader;
    var pending := names;
    order := [];
    while pending != {}
      invariant forall n :: n in names <==> n in pending || n in order
      invariant forall n :: n in order ==> n !in pending
      invariant forall i, j :: 0 <= i < j < |order| ==> order[i] != order[j]
      invariant builder == ListHeader + SpaceTerminated(order)
      decreases pending
    {
      var n :| n in pending;
      SpaceTerminatedSnoc(order, n);
      ConcatAssoc(ListHeader, SpaceTerminated(order), n + " ");
      builder := builder + (n + " ");
      order := order + [n];
      pending := pending - {n};
    }
    line := builder + "\n";
  }

  /** One more name adds that name and a space at the end. */
  lemma SpaceTerminatedSnoc(names: seq<string>, name: string)
    ensures SpaceTerminated(names + [name]) == SpaceTerminated(names) + (name + " ")
  {
    assert (names + [name])[..|names|] == names;
    ConcatAssoc(SpaceTerminated(names), name, " ");
  }

  /** A listing names as many entries as there are registered names. */
  lemma {:induction false} OrderingSize(order: seq<string>, names: set<string>)
    requires IsOrdering(order, names)
    ensures |order| == |names|
  {
    if order != [] {
      var last := order[|order| - 1];
      var init := order[..|order| - 1];
      assert IsOrdering(init, names - {last}) by {
        forall n ensures n in names - {last} <==> n in init {
          if n in order && n != last {
            var i :| 0 <= i < |order| && order[i] == n;
            assert i < |order| - 1;
            assert init[i] == n;
          }
        }
      }
      OrderingSize(init, names - {last});
    }
  }

  /** The receiving side of a connection: the frames the client has sent that the server has not read yet. */
  class InputStream {
    var frames: seq<string>

    constructor (input: seq<string>)
      ensures frames == input
    {
      frames := input;
    }

    /** Reads the next frame; none when the client has nothing more to send (the read fails). */
    method ReadUTF() returns (frame: Option<string>)
      modifies this
      ensures old(frames) == [] ==> frame == None && frames == []
      ensures old(frames) != [] ==> frame == Some(old(frames)[0]) && frames == old(frames)[1..]
    {
      if frames == [] {
        frame := None;
      } else {
        frame := Some(frames[0]);
        frames := frames[1..];
      }
    }
  }

  /** One connection as the server sees it. */
  class ClientHandler {
    /** The last name the client offered; its registry key once it is registered. */
    var userName: string
    var closed: bool
    /** Every frame the server has written to this connection, oldest first. */
    var outbox: seq<string>
    const input: InputStream

    constructor (frames: seq<string>)
      ensures userName == "" && !closed && outbox == [] && input.frames == frames && fresh(input)
    {
      userName := "";
      closed := false;
      outbox := [];
      input := new InputStream(frames);
    }

    /** Writes one frame, unless the connection is closed. */
    method SendMessage(message: string)
      modifies this
      ensures userName == old(userName) && closed == old(closed)
      ensures outbox == if old(closed) then old(outbox) else old(outbox) + [message]
    {
      if !closed {
        outbox := outbox + [message];
      }
    }

    /** Closes the connection; closing a closed connection changes nothing. */
    method Close()
      modifies this
      ensures closed
      ensures userName == old(userName) && outbox == old(outbox)
    {
      if !closed {
        closed := true;
      }
    }

    /** Sends the prompt and reads the name the client offers, which becomes this handler's name. */
    method PromptUserName() returns (name: Option<string>)
      modifies this, input
      ensures closed == old(closed)
      ensures outbox == if old(closed) then old(outbox) else old(outbox) + [Prompt]
      ensures old(input.frames) == [] ==> name == None && input.frames == [] && userName == old(userName)
      ensures old(input.frames) != [] ==>
                && name == Some(old(input.frames)[0]) && userName == old(input.frames)[0]
                && input.frames == old(input.frames)[1..]
    {
      SendMessage(Prompt);
      name := input.ReadUTF();
      if name.Some? {
        userName := name.value;
      }
    }
  }

  /** Nothing about the connections in `hs` changed. */
  twostate predicate Untouched(hs: set<ClientHandler>)
    reads hs
  {
    forall h :: h in hs ==>
      h.userName == old(h.userName) && h.closed == old(h.closed) && h.outbox == old(h.outbox)
  }

  /** Of the connections in `hs`, only `target` received a frame, `frame`, and only if it was open. */
  twostate predicate OnlyOneGets(hs: set<ClientHandler>, target: ClientHandler, frame: string)
    reads hs
  {
    forall h :: h in hs ==>
      && h.userName == old(h.userName) && h.closed == old(h.closed)
      && h.outbox == old(h.outbox) + (if h == target && !old(h.closed) then [frame] else [])
  }

  /** Every open connection in `hs` not named `sender` received `frame`; nothing else changed. */
  twostate predicate AllButSenderGet(hs: set<ClientHandler>, sender: string, frame: string)
    reads hs
  {
    forall h :: h in hs ==>
      && h.userName == old(h.userName) && h.closed == old(h.closed)
      && h.outbox == old(h.outbox) + (if !old(h.closed) && h.userName != sender then [frame] else [])
  }

  /** Every open connection in `hs` received `frame`; nothing else changed. */
  twostate predicate AllGet(hs: set<ClientHandler>, frame: string)
    reads hs
  {
    forall h :: h in hs ==>
      && h.userName == old(h.userName) && h.closed == old(h.closed)
      && h.outbox == old(h.outbox) + (if !old(h.closed) then [frame] else [])
  }

  /** The outbox of each connection in `hs`. */
  function Outboxes(hs: set<ClientHandler>): map<ClientHandler, seq<string>>
    reads hs
  {
    map h | h in hs :: h.outbox
  }

  /** The closed flag of each connection in `hs`. */
  function Flags(hs: set<ClientHandler>): map<ClientHandler, bool>
    reads hs
  {
    map h | h in hs :: h.closed
  }

  /**
    The effect of shutting down the registry `clients`, its connections
    disconnected in `order`, that takes their outboxes and flags from
    `outbox0`, `closed0` to `outbox`, `closed`: `order` names every
    registered connection once, and each was sent the leave notices of those
    disconnected before it while it was open, then the close sentinel, and
    is now closed.
   */
  ghost predicate ShutDown(clients: map<string, ClientHandler>, order: seq<string>,
                           outbox0: map<ClientHandler, seq<string>>, closed0: map<ClientHandler, bool>,
                           outbox: map<ClientHandler, seq<string>>, closed: map<ClientHandler, bool>)
  {
    && clients.Values <= outbox0.Keys && clients.Values <= closed0.Keys
    && clients.Values <= outbox.Keys && clients.Values <= closed.Keys
    && IsOrdering(order, clients.Keys)
    && forall i :: 0 <= i < |order| && order[i] in clients ==>
         && closed[clients[order[i]]]
         && outbox[clients[order[i]]] == outbox0[clients[order[i]]] +
              (if closed0[clients[order[i]]] then [] else Leaves(order[..i]) + [CloseSentinel])
  }

  /**
    Progress of a shutdown of the registry `clients`, whose connections now
    have the outboxes `outbox` and flags `closed`: the names in `order` are
    disconnected, the connections in `pending` are not yet, and every frame
    written so far is accounted for against `outbox0` and `closed0`, the
    outboxes and flags at the start.
   */
  ghost predicate Closing(clients: map<string, ClientHandler>,
                          outbox: map<ClientHandler, seq<string>>, closed: map<ClientHandler, bool>,
                          pending: set<ClientHandler>, order: seq<string>,
                          outbox0: map<ClientHandler, seq<string>>, closed0: map<ClientHandler, bool>)
  {
    && pending <= clients.Values
    && clients.Values <= outbox.Keys && clients.Values <= closed.Keys
    && clients.Values <= outbox0.Keys && clients.Values <= closed0.Keys
    && (forall n :: n in order ==> n in clients && clients[n] !in pending)
    && (forall n :: n in clients && clients[n] !in pending ==> n in order)
    && (forall i, j :: 0 <= i < j < |order| ==> order[i] != order[j])
    && (forall i :: 0 <= i < |order| && order[i] in clients ==>
          && closed[clients[order[i]]]
          && outbox[clients[order[i]]] == outbox0[clients[order[i]]] +
               (if closed0[clients[order[i]]] then [] else Leaves(order[..i]) + [CloseSentinel]))
    && (forall h :: h in pending ==>
          && closed[h] == closed0[h]
          && outbox[h] == outbox0[h] + (if closed0[h] then [] else Leaves(order)))
  }

  /**
    Disconnecting the pending connection registered under `name`, which
    takes the outboxes and flags from `outbox`, `closed` to `outbox'`,
    `closed'`, moves it from `pending` to the end of `order`.
   */
  lemma ClosingStep(clients: map<string, ClientHandler>, name: string,
                    outbox: map<ClientHandler, seq<string>>, closed: map<ClientHandler, bool>,
                    outbox': map<ClientHandler, seq<string>>, closed': map<ClientHandler, bool>,
                    pending: set<ClientHandler>, order: seq<string>,
                    outbox0: map<ClientHandler, seq<string>>, closed0: map<ClientHandler, bool>)
    requires Closing(clients, outbox, closed, pending, order, outbox0, closed0)
    requires name in clients && clients[name] in pending
    requires forall n :: n in clients && clients[n] == clients[name] ==> n == name
    requires outbox'.Keys == outbox.Keys && closed'.Keys == closed.Keys
    requires closed'[clients[name]]
    requires outbox'[clients[name]] == outbox[clients[name]] + (if closed[clients[name]] then [] else [CloseSentinel])
    requires forall h :: h in clients.Values - {clients[name]} ==>
      && closed'[h] == closed[h]
      && outbox'[h] == outbox[h] + (if closed[h] then [] else [LeaveMessage(name)])
    ensures Closing(clients, outbox', closed', pending - {clients[name]}, order + [name], outbox0, closed0)
  {
    ClosingStepOrder(clients, name, pending, order);
    ClosingStepDone(clients, name, outbox, closed, outbox', closed', pending, order, outbox0, closed0);
    ClosingStepPending(clients, name, outbox, closed, outbox', closed', pending, order, outbox0, closed0);
  }

  /** The bookkeeping of names in a shutdown step. */
  lemma ClosingStepOrder(clients: map<string, ClientHandler>, name: string, pending: set<ClientHandler>, order: seq<string>)
    requires pending <= clients.Values
    requires forall n :: n in order ==> n in clients && clients[n] !in pending
    requires forall n :: n in clients && clients[n] !in pending ==> n in order
    requires forall i, j :: 0 <= i < j < |order| ==> order[i] != order[j]
    requires name in clients && clients[name] in pending
    requires forall n :: n in clients && clients[n] == clients[name] ==> n == name
    ensures var order', pending' := order + [name], pending - {clients[name]};
      && (forall n :: n in order' ==> n in clients && clients[n] !in pending')
      && (forall n :: n in clients && clients[n] !in pending' ==> n in order')
      && (forall i, j :: 0 <= i < j < |order'| ==> order'[i] != order'[j])
  {
    var client := clients[name];
    var order' := order + [name];
    var pending' := pending - {client};
    forall n | n in order' ensures n in clients && clients[n] !in pending' {
      if n != name {
        assert n in order;
      }
    }
    forall n | n in clients && clients[n] !in pending' ensures n in order' {
      if clients[n] != client {
        assert n in order;
      }
    }
    forall i, j | 0 <= i < j < |order'| ensures order'[i] != order'[j] {
      if j == |order| {
        assert order[i] in order;
      }
    }
  }

  /** In a shutdown step, the connections already disconnected keep their frames and the one disconnected now gets the sentinel. */
  lemma ClosingStepDone(clients: map<string, ClientHandler>, name: string,
                        outbox: map<ClientHandler, seq<string>>, closed: map<ClientHandler, bool>,
                        outbox': map<ClientHandler, seq<string>>, closed': map<ClientHandler, bool>,
                        pending: set<ClientHandler>, order: seq<string>,
                        outbox0: map<ClientHandler, seq<string>>, closed0: map<ClientHandler, bool>)
    requires Closing(clients, outbox, closed, pending, order, outbox0, closed0)
    requires name in clients && clients[name] in pending
    requires outbox'.Keys == outbox.Keys && closed'.Keys == closed.Keys
    requires closed'[clients[name]]
    requires outbox'[clients[name]] == outbox[clients[name]] + (if closed[clients[name]] then [] else [CloseSentinel])
    requires forall h :: h in clients.Values - {clients[name]} ==>
      && closed'[h] == closed[h]
      && outbox'[h] == outbox[h] + (if closed[h] then [] else [LeaveMessage(name)])
    ensures var order' := order + [name];
      forall i :: 0 <= i < |order'| && order'[i] in clients ==>
        && closed'[clients[order'[i]]]
        && outbox'[clients[order'[i]]] == outbox0[clients[order'[i]]] +
             (if closed0[clients[order'[i]]] then [] else Leaves(order'[..i]) + [CloseSentinel])
  {
    var client := clients[name];
    var order' := order + [name];
    forall i | 0 <= i < |order'| && order'[i] in clients
      ensures && closed'[clients[order'[i]]]
              && outbox'[clients[order'[i]]] == outbox0[clients[order'[i]]] +
                   (if closed0[clients[order'[i]]] then [] else Leaves(order'[..i]) + [CloseSentinel])
    {
      if i < |order| {
        assert order'[..i] == order[..i];
        assert clients[order[i]] in clients.Values - {client};
      } else {
        assert order'[..i] == order;
        if !closed0[client] {
          ConcatAssoc(outbox0[client], Leaves(order), [CloseSentinel]);
        }
      }
    }
  }

  /** In a shutdown step, every connection still pending gets the leave notice of the one disconnected now. */
  lemma ClosingStepPending(clients: map<string, ClientHandler>, name: string,
                           outbox: map<ClientHandler, seq<string>>, closed: map<ClientHandler, bool>,
                           outbox': map<ClientHandler, seq<string>>, closed': map<ClientHandler, bool>,
                           pending: set<ClientHandler>, order: seq<string>,
                           outbox0: map<ClientHandler, seq<string>>, closed0: map<ClientHandler, bool>)
    requires Closing(clients, outbox, closed, pending, order, outbox0, closed0)
    requires name in clients
    requires outbox'.Keys == outbox.Keys && closed'.Keys == closed.Keys
    requires forall h :: h in clients.Values - {clients[name]} ==>
      && closed'[h] == closed[h]
      && outbox'[h] == outbox[h] + (if closed[h] then [] else [LeaveMessage(name)])
    ensures forall h :: h in pending - {clients[name]} ==>
      && closed'[h] == closed0[h]
      && outbox'[h] == outbox0[h] + (if closed0[h] then [] else Leaves(order + [name]))
  {
    LeavesSnoc(order, name);
    forall h | h in pending - {clients[name]}
      ensures && closed'[h] == closed0[h]
              && outbox'[h] == outbox0[h] + (if closed0[h] then [] else Leaves(order + [name]))
    {
      assert h in clients.Values - {clients[name]};
      if !closed0[h] {
        ConcatAssoc(outbox0[h], Leaves(order), [LeaveMessage(name)]);
      }
    }
  }

  /** Once nothing is pending, the shutdown is complete. */
  lemma ClosingDone(clients: map<string, ClientHandler>,
                    outbox: map<ClientHandler, seq<string>>, closed: map<ClientHandler, bool>,
                    order: seq<string>, outbox0: map<ClientHandler, seq<string>>, closed0: map<ClientHandler, bool>)
    requires Closing(clients, outbox, closed, {}, order, outbox0, closed0)
    ensures ShutDown(clients, order, outbox0, closed0, outbox, closed)
  {
  }

  lemma ConcatAssoc<T>(a: seq<T>, b: seq<T>, c: seq<T>)
    ensures a + b + c == a + (b + c)
  {
  }

  /** The server: its listening socket, reduced to whether it still accepts, and the registry. */
  class Server {
    /** The registry: each connected client under the name it negotiated. */
    var clients: map<string, ClientHandler>
    var accepting: bool

    /** Every registered connection carries the name it is registered under, so no connection is registered twice. */
    ghost predicate Valid()
      reads this, clients.Values
    {
      forall name :: name in clients ==> clients[name].userName == name
    }

    /** Between steps no registered connection is closed. */
    ghost predicate AllOpen()
      reads this, clients.Values
    {
      forall name :: name in clients ==> !clients[name].closed
    }

    constructor ()
      ensures Valid() && AllOpen()
      ensures clients == map[] && accepting
    {
      clients := map[];
      accepting := true;
    }

    /** The effect of disconnecting `client`, registered in `before`. */
    twostate predicate Disconnected(before: map<string, ClientHandler>, client: ClientHandler, remove: bool)
      reads this, client, before.Values
    {
      && clients == (if remove then before - {client.userName} else before)
      && client.closed && client.userName == old(client.userName)
      && client.outbox == old(client.outbox) + (if old(client.closed) then [] else [CloseSentinel])
      && AllButSenderGet(before.Values - {client}, client.userName, LeaveMessage(client.userName))
    }

    /** The effect of the command frame `command` from `from`; `listed` is the order in which a `/list` reply named the users. */
    twostate predicate CommandHandled(before: map<string, ClientHandler>, command: string, from: ClientHandler,
                                      listed: seq<string>)
      requires StartsWithSlash(command)
      reads this, from, before.Values
    {
      var tokens := CommandTokens(command);
      if tokens[0] == "/quit" then
        Disconnected(before, from, true)
      else
        && clients == before
        && if tokens[0] == "/whisper" then
             if |tokens| < 3 then OnlyOneGets(before.Values, from, WhisperUsage)
             else if tokens[1] !in before then OnlyOneGets(before.Values, from, NoSuchUser(tokens[1]))
             else OnlyOneGets(before.Values, before[tokens[1]],
                              WhisperMessage(from.userName, SpaceTerminated(tokens[2..])))
           else if tokens[0] == "/list" then
             IsOrdering(listed, before.Keys) && OnlyOneGets(before.Values, from, ListLine(listed))
           else
             OnlyOneGets(before.Values, from, UnknownCommand(tokens[0]))
    }

    /** The effect of one frame `message` read from `from`: a command, or a chat line to everyone else. */
    twostate predicate Dispatched(before: map<string, ClientHandler>, message: string, from: ClientHandler,
                                  listed: seq<string>)
      reads this, from, before.Values
    {
      if StartsWithSlash(message) then CommandHandled(before, message, from, listed)
      else
        && clients == before
        && AllButSenderGet(before.Values, from.userName, GlobalMessage(from.userName, message))
    }

    /** Writes `frame` to every registered connection other than `except`. */
    method SendToAllExcept(frame: string, except: ClientHandler?)
      modifies clients.Values
      ensures forall h :: h in clients.Values ==>
        && h.userName == old(h.userName) && h.closed == old(h.closed)
        && h.outbox == old(h.outbox) + (if !old(h.closed) && h != except then [frame] else [])
    {
      var pending := clients.Values;
      while pending != {}
        invariant pending <= clients.Values
        invariant forall h :: h in clients.Values ==>
          h.userName == old(h.userName) && h.closed == old(h.closed)
        invariant forall h :: h in clients.Values - pending ==>
          h.outbox == old(h.outbox) + (if !old(h.closed) && h != except then [frame] else [])
        invariant forall h :: h in pending ==> h.outbox == old(h.outbox)
        decreases pending
      {
        var client :| client in pending;
        if client != except {
          client.SendMessage(frame);
        }
        pending := pending - {client};
      }
    }

    /**
      A server line goes, server-formatted, to every open registered
      connection; any other message goes to every open registered connection
      except the one registered under `userName`.
     */
    method Broadcast(userName: string, message: string, fromServer: bool)
      requires Valid()
      modifies clients.Values
      ensures Valid()
      ensures fromServer ==> AllGet(clients.Values, ServerMessage(message))
      ensures !fromServer ==> AllButSenderGet(clients.Values, userName, message)
    {
      if fromServer {
        SendToAllExcept(ServerMessage(message), null);
        return;
      }
      var from: ClientHandler? := if userName in clients then clients[userName] else null;
      SendToAllExcept(message, from);
    }

    /**
      Disconnects `client`: drops its name from the registry when `remove`
      is set, sends it the close sentinel, closes it, and tells every other
      open registered connection that it left.
     */
    method DisconnectClient(client: ClientHandler, remove: bool)
      requires Valid() && client in clients.Values
      modifies this, clients.Values
      ensures Valid() && accepting == old(accepting)
      ensures Disconnected(old(clients), client, remove)
      ensures remove ==> client.userName !in clients
      ensures remove && old(AllOpen()) ==> AllOpen()
    {
      var userName := client.userName;
      ghost var others := clients.Values - {client};
      assert userName in clients && clients[userName] == client by {
        var k :| k in clients && clients[k] == client;
      }
      if remove {
        clients := clients - {userName};
      }
      forall h | h in others ensures h in clients.Values {
        var k :| k in old(clients) && old(clients)[k] == h;
        assert k in clients && clients[k] == h;
      }
      client.SendMessage(CloseSentinel);
      client.Close();
      Broadcast(userName, LeaveMessage(userName), false);
    }

    /**
      Runs the command frame `command` from `from`: `/quit` disconnects it,
      `/whisper <user> <text...>` writes to one registered user, `/list`
      names the registered users, and any other word is refused.
     */
    method HandleCommand(command: string, from: ClientHandler) returns (ghost listed: seq<string>)
      requires Valid() && StartsWithSlash(command) && from in clients.Values
      modifies this, clients.Values
      ensures Valid() && accepting == old(accepting)
      ensures CommandHandled(old(clients), command, from, listed)
      ensures old(AllOpen()) ==> AllOpen()
    {
      var tokens := CommandTokens(command);
      listed := [];
      if tokens[0] == "/quit" {
        DisconnectClient(from, true);
      } else if tokens[0] == "/whisper" {
        if |tokens| < 3 {
          SendTo(from, WhisperUsage);
          return;
        }
        var to := tokens[1];
        if to !in clients {
          SendTo(from, NoSuchUser(to));
          return;
        }
        var body := WhisperBody(tokens);
        SendTo(clients[to], WhisperMessage(from.userName, body));
      } else if tokens[0] == "/list" {
        var line;
        line, listed := UserList(clients.Keys);
        SendTo(from, line);
      } else {
        SendTo(from, UnknownCommand(tokens[0]));
      }
    }

    /** Writes `frame` to the one registered connection `target`. */
    method SendTo(target: ClientHandler, frame: string)
      requires Valid() && target in clients.Values
      modifies target
      ensures Valid() && (old(AllOpen()) ==> AllOpen())
      ensures OnlyOneGets(clients.Values, target, frame)
    {
      target.SendMessage(frame);
    }

    /** One frame read from `from`: a frame starting with a slash is a command, anything else is chat. */
    method Dispatch(message: string, from: ClientHandler) returns (ghost listed: seq<string>)
      requires Valid() && from in clients.Values
      modifies this, clients.Values
      ensures Valid() && accepting == old(accepting)
      ensures Dispatched(old(clients), message, from, listed)
      ensures old(AllOpen()) ==> AllOpen()
    {
      listed := [];
      if StartsWithSlash(message) {
        listed := HandleCommand(message, from);
      } else {
        Broadcast(from.userName, GlobalMessage(from.userName, message), false);
      }
    }

    /**
      One turn of a registered connection's receive loop: nothing happens
      once it is closed or while it has nothing to read; otherwise its next
      frame is read and dispatched. The frame is taken off the input after
      dispatching, which touches no input, so the order is not observable.
     */
    method Serve(handler: ClientHandler) returns (frame: Option<string>, ghost listed: seq<string>)
      requires Valid() && handler in clients.Values
      modifies this, clients.Values, handler.input
      ensures Valid() && accepting == old(accepting)
      ensures frame == if old(handler.closed) || old(handler.input.frames) == [] then None
                       else Some(old(handler.input.frames)[0])
      ensures frame.None? ==> clients == old(clients) && Untouched(old(clients.Values))
      ensures frame.None? ==> handler.input.frames == old(handler.input.frames)
      ensures frame.Some? ==> handler.input.frames == old(handler.input.frames)[1..]
      ensures frame.Some? ==> Dispatched(old(clients), frame.value, handler, listed)
      ensures old(AllOpen()) ==> AllOpen()
    {
      listed := [];
      if handler.closed || handler.input.frames == [] {
        return None, listed;
      }
      listed := Dispatch(handler.input.frames[0], handler);
      frame := handler.input.ReadUTF();
    }

    /** One turn of the shutdown loop: disconnects the pending connection `client`, which moves to the end of `order`. */
    method CloseNext(client: ClientHandler, ghost pending: set<ClientHandler>, ghost order: seq<string>,
                     ghost outbox0: map<ClientHandler, seq<string>>, ghost closed0: map<ClientHandler, bool>)
      requires Valid() && client in pending
      requires Closing(clients, Outboxes(clients.Values), Flags(clients.Values), pending, order, outbox0, closed0)
      modifies this, clients.Values
      ensures Valid() && clients == old(clients) && accepting == old(accepting)
      ensures Closing(clients, Outboxes(clients.Values), Flags(clients.Values),
                      pending - {client}, order + [client.userName], outbox0, closed0)
    {
      var name := client.userName;
      assert name in clients && clients[name] == client by {
        var k :| k in clients && clients[k] == client;
      }
      ghost var outbox := Outboxes(clients.Values);
      ghost var closed := Flags(clients.Values);
      DisconnectClient(client, false);
      ghost var outbox' := Outboxes(clients.Values);
      ghost var closed' := Flags(clients.Values);
      forall h | h in clients.Values - {client}
        ensures closed'[h] == closed[h]
        ensures outbox'[h] == outbox[h] + (if closed[h] then [] else [LeaveMessage(name)])
      {
        assert h.userName != name by {
          var k :| k in clients && clients[k] == h;
        }
      }
      assert forall n :: n in clients && clients[n] == client ==> n == name;
      ClosingStep(clients, name, outbox, closed, outbox', closed', pending, order, outbox0, closed0);
    }

    /**
      The loop of the shutdown: every registered connection is disconnected
      but left registered, in `order`, the order in which the hash map yields
      them. Each is sent the leave notices of those disconnected before it
      while it is still open, then the close sentinel, and is closed.
     */
    method DisconnectAll() returns (ghost order: seq<string>)
      requires Valid()
      modifies this, clients.Values
      ensures Valid() && clients == old(clients) && accepting == old(accepting)
      ensures IsOrdering(order, clients.Keys)
      ensures forall i :: 0 <= i < |order| ==> order[i] in clients
      ensures forall i :: 0 <= i < |order| && order[i] in clients ==>
        var h := clients[order[i]];
        && h.closed
        && h.outbox == old(h.outbox) + (if old(h.closed) then [] else Leaves(order[..i]) + [CloseSentinel])
    {
      ghost var outbox0 := Outboxes(clients.Values);
      ghost var closed0 := Flags(clients.Values);
      var pending := clients.Values;
      order := [];
      while pending != {}
        invariant Valid() && clients == old(clients) && accepting == old(accepting)
        invariant Closing(clients, Outboxes(clients.Values), Flags(clients.Values), pending, order, outbox0, closed0)
        decreases pending
      {
        var client :| client in pending;
        CloseNext(client, pending, order, outbox0, closed0);
        order := order + [client.userName];
        pending := pending - {client};
      }
      ClosingDone(clients, Outboxes(clients.Values), Flags(clients.Values), order, outbox0, closed0);
    }

    /** The operator's shutdown: every registered connection is disconnected, then the registry is cleared and the listening socket closed. */
    method Close() returns (ghost order: seq<string>)
      requires Valid()
      modifies this, clients.Values
      ensures clients == map[] && !accepting
      ensures IsOrdering(order, old(clients).Keys)
      ensures forall i :: 0 <= i < |order| ==> order[i] in old(clients)
      ensures forall i :: 0 <= i < |order| && order[i] in old(clients) ==>
        var h := old(clients)[order[i]];
        && h.closed && h.userName == old(h.userName)
        && h.outbox == old(h.outbox) + (if old(h.closed) then [] else Leaves(order[..i]) + [CloseSentinel])
    {
      order := DisconnectAll();
      clients := map[];
      accepting := false;
    }

    /**
      One line typed by the operator: `/close` shuts the server down, any
      other line starting with a slash is refused on the console and changes
      nothing, and anything else goes to every open registered connection as
      a server line. `stop` tells the console loop to end.
     */
    method OperatorLine(line: string) returns (stop: bool, ghost order: seq<string>)
      requires Valid()
      modifies this, clients.Values
      ensures stop <==> line == CloseSentinel
      ensures stop ==> && clients == map[] && !accepting
                       && IsOrdering(order, old(clients).Keys)
                       && (forall i :: 0 <= i < |order| ==> order[i] in old(clients))
      ensures stop ==> forall i :: 0 <= i < |order| && order[i] in old(clients) ==>
        var h := old(clients)[order[i]];
        && h.closed && h.userName == old(h.userName)
        && h.outbox == old(h.outbox) + (if old(h.closed) then [] else Leaves(order[..i]) + [CloseSentinel])
      ensures !stop ==> Valid() && clients == old(clients) && accepting == old(accepting)
      ensures !stop && StartsWithSlash(line) ==> Untouched(clients.Values)
      ensures !stop && !StartsWithSlash(line) ==> AllGet(clients.Values, ServerMessage(line))
    {
      order := [];
      if line == CloseSentinel {
        order := Close();
        return true, order;
      }
      stop := false;
      if !StartsWithSlash(line) {
        Broadcast("", line, true);
      }
    }

    /**
      Accepts one connection whose client will send `frames`, and negotiates
      its name: the client is prompted, and while the name it offers is
      registered it is told so and prompted again. The first free name is
      registered and announced to everyone else; a client that stops
      sending names before offering a free one is not registered.
     */
    method Accept(frames: seq<string>) returns (handler: ClientHandler?, registered: bool)
      requires Valid()
      modifies this, clients.Values
      ensures Valid() && accepting == old(accepting)
      ensures old(AllOpen()) ==> AllOpen()
      ensures !old(accepting) ==> handler == null && !registered && clients == old(clients)
      ensures old(accepting) ==> handler != null && fresh(handler) && !handler.closed
      ensures old(accepting) ==> var i := FirstFree(old(clients).Keys, frames);
        && registered == (i < |frames|)
        && handler.outbox == Prompts(frames[..i])
        && (registered ==> && handler.userName == frames[i] && handler.input.frames == frames[i + 1..]
                           && clients == old(clients)[frames[i] := handler])
        && (!registered ==> handler.input.frames == [] && clients == old(clients))
      ensures registered ==> AllGet(old(clients.Values), JoinMessage(handler.userName))
      ensures !registered ==> Untouched(old(clients.Values))
    {
      if !accepting {
        return null, false;
      }
      handler := new ClientHandler(frames);
      var name := Negotiate(handler);
      if name.None? {
        return handler, false;
      }
      Register(handler, name.value);
      registered := true;
    }

    /** Registers the open connection `handler` under the free name it negotiated and announces it to everyone else. */
    method Register(handler: ClientHandler, userName: string)
      requires Valid() && userName !in clients && handler !in clients.Values
      requires handler.userName == userName && !handler.closed
      modifies this, handler, clients.Values
      ensures Valid() && accepting == old(accepting)
      ensures clients == old(clients)[userName := handler]
      ensures handler.userName == userName && !handler.closed && handler.outbox == old(handler.outbox)
      ensures AllGet(old(clients.Values), JoinMessage(userName))
      ensures old(AllOpen()) ==> AllOpen()
    {
      clients := clients[userName := handler];
      forall h | h in old(clients.Values) ensures h.userName != userName && h in clients.Values {
        var k :| k in old(clients) && old(clients)[k] == h;
        assert clients[k] == h;
      }
      Broadcast(userName, JoinMessage(userName), false);
    }

    /**
      The negotiation loop for the open, unregistered connection `handler`:
      prompt, then re-prompt after every name that is already registered.
      Yields the first free name offered, or none when the client stops
      sending names first.
     */
    method Negotiate(handler: ClientHandler) returns (name: Option<string>)
      requires !handler.closed
      modifies handler, handler.input
      ensures !handler.closed
      ensures var offered := old(handler.input.frames);
        var i := FirstFree(clients.Keys, offered);
        && handler.outbox == old(handler.outbox) + Prompts(offered[..i])
        && (name.Some? <==> i < |offered|)
        && (name.Some? ==> && name.value == offered[i] && handler.userName == offered[i]
                           && handler.input.frames == offered[i + 1..])
        && (name.None? ==> handler.input.frames == [])
    {
      ghost var offered := handler.input.frames;
      ghost var read := 0;
      var reply := handler.PromptUserName();
      if reply.None? {
        FirstFreeAt(clients.Keys, offered, 0);
        assert offered[..0] == [];
        return None;
      }
      var userName := reply.value;
      while userName in clients
        invariant read < |offered| && userName == offered[read] && handler.userName == userName
        invariant forall j :: 0 <= j < read ==> offered[j] in clients
        invariant handler.input.frames == offered[read + 1..]
        invariant handler.outbox == old(handler.outbox) + Prompts(offered[..read])
        invariant !handler.closed
        decreases |handler.input.frames|
      {
        NegotiationStep(old(handler.outbox), offered, read);
        handler.SendMessage(AlreadyExists(userName));
        reply := handler.PromptUserName();
        if reply.None? {
          FirstFreeAt(clients.Keys, offered, read + 1);
          return None;
        }
        read := read + 1;
        userName := reply.value;
      }
      FirstFreeAt(clients.Keys, offered, read);
      name := Some(userName);
    }
  }
}
