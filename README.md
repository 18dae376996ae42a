# ChatRoom server: routing state machine

A Dafny model of the chatroom server's core (`src/Server.java`) and of the
message layouts it sends (`src/MessageFormatter.java`). The model covers:

- the registry of connected clients, keyed by user name;
- username negotiation;
- broadcast;
- the client command protocol: `/quit`, `/whisper`, `/list` and unknown commands;
- disconnection;
- the operator's console: server lines and `/close`;
- the per-connection dispatch of inbound frames.

Files:

- `message_formatter.dfy` (module `MessageFormatter`). The ANSI color
  constants and the five layouts, as pure functions. Each layout is proved
  to end with a newline and to give back its message (or user name) when its
  fixed prefix and suffix are stripped.
- `java_strings.dfy` (module `JavaStrings`). The part of `java.lang.String`
  that command parsing relies on:
  - `split(" ")`: a single-space separator; consecutive spaces give empty
    tokens; trailing empty tokens are dropped; a string without a space comes
    back whole;
  - the StringBuilder idiom "every token followed by one space".

  The lemmas relate the split to a join and to stripping trailing spaces.
- `chat_server.dfy` (module `ChatServer`). The server as a `Server` class.
  - Its field `clients` is a `map<string, ClientHandler>`. The methods assign
    it a new map where the source puts into, removes from or clears the Java
    `HashMap` in place.
  - Its field `accepting` stands for the listening socket being open.
  - Each connection is a `ClientHandler` object with:
    - the user name;
    - a `closed` flag;
    - an `outbox`: every frame written to the connection, oldest first;
    - an `InputStream` holding the frames the peer has sent that the server
      has not read yet.

  Each operation is modelled as one atomic method. The source runs them on
  concurrent threads without locking (see Left out). The loops of the source
  are `while` loops:
  - the negotiation loop, over the names the client offers;
  - the broadcast loops and the shutdown loop, over the map's values;
  - the whisper-body builder, over the command's tokens;
  - the user-list builder, over the map's keys.

  The order in which a `HashMap` yields its entries is not specified, so a
  loop over the map picks an arbitrary remaining entry. The methods return
  the order they used as a ghost sequence. Their contracts hold for every
  such order:
  - `listed` for `/list`;
  - `order` for shutdown.

The invariant `Server.Valid` holds between operations: each registered
connection carries the name it is registered under, so no connection is
registered twice and no two connections share a name.

Points where the code's behaviour is easy to misread:

- Command parsing splits on each single space, so consecutive spaces give
  empty tokens.
- The whisper body and the `/list` reply put a space after every token,
  including the last one. `JavaStrings.CommandWithTwoWords` states exactly
  what a whisper body is for a given frame.
- Broadcast iterates over the live registry map.
- The join notice is a chat-style broadcast from the new name, so it reaches
  every other registered connection but not the joiner.
- A connection whose peer has nothing more to send is not disconnected by its
  receive loop. The loop only polls. Disconnection on a read error is an
  exception path (see Left out).

## Model

| member | source | states |
|---|---|---|
| `MessageFormatter.GlobalMessage` | src/MessageFormatter.java:29-39 | a chat line ends with a newline, and removing the `[user]: ` prefix and the newline gives back the message |
| `MessageFormatter.ServerMessage` | src/MessageFormatter.java:50-60 | a server line ends with a newline and carries exactly the message between the bold-white `[SERVER]: ` prefix and the reset code |
| `MessageFormatter.JoinMessage` | src/MessageFormatter.java:73-83 | a join notice ends with a newline and names exactly the user between the green code and ` has joined the chat` |
| `MessageFormatter.LeaveMessage` | src/MessageFormatter.java:96-106 | a leave notice ends with a newline and names exactly the user between the red code and ` has left the chat` |
| `MessageFormatter.WhisperMessage` | src/MessageFormatter.java:120-131 | a whisper ends with a newline and carries exactly the message between the yellow `user has whispered: ` prefix and the reset code |
| `MessageFormatter.GlobalMessageInjective` | src/MessageFormatter.java:29-39 | for one sender, equal chat lines come from equal messages |
| `MessageFormatter.WhisperMessageInjective` | src/MessageFormatter.java:120-131 | for one sender, equal whispers come from equal messages |
| `MessageFormatter.JoinIsNotLeave` | src/MessageFormatter.java:13-14 | no join notice equals any leave notice, because their color codes differ |
| `JavaStrings.SplitAll` | src/Server.java:151 | every piece of the string between single spaces, none dropped; there is always at least one (partner: `JavaStrings.JoinSplitAll`) |
| `JavaStrings.JavaSplit` | src/Server.java:151 | `split(" ")`: a string without a space is its only token; otherwise no token holds a space and the last token is not empty (partner: `JavaStrings.JavaSplitJoin`) |
| `JavaStrings.DropTrailingEmpty` | src/Server.java:151 | the result is a prefix of the tokens that does not end in an empty token, and only empty tokens were removed |
| `JavaStrings.StripTrailingSpaces` | src/Server.java:151 | the result is a prefix of the string that does not end in a space, and only spaces were removed |
| `JavaStrings.SplitAllHasNoSpaces` | src/Server.java:151 | no piece of a split contains the separator |
| `JavaStrings.JoinSplitAll` | src/Server.java:151 | joining the pieces of a split with single spaces gives back the string |
| `JavaStrings.DropTrailingEmptyStrips` | src/Server.java:151 | the tokens kept after trailing empty ones are dropped are empty exactly when the string is blank, and otherwise join back to the string without its trailing spaces |
| `JavaStrings.JavaSplitJoin` | src/Server.java:151 | `split(" ")` yields no tokens exactly for a non-empty string of spaces, and otherwise its tokens join back to the string without its trailing spaces |
| `JavaStrings.SpaceTerminatedIsJoinPlusSpace` | src/Server.java:177-180 | the StringBuilder loop gives the single-space join plus one trailing space |
| `JavaStrings.SplitAllWithoutSpace` | src/Server.java:151 | a string without a space is one piece |
| `JavaStrings.SplitAllConcat` | src/Server.java:151 | splitting at a space splits both sides independently |
| `JavaStrings.DropTrailingEmptyAfter` | src/Server.java:151 | trailing empty tokens after a non-empty token are the only ones dropped |
| `JavaStrings.TwoWordsThenText` | src/Server.java:151 | a frame `w to text`, where `w` and `to` have no spaces, splits into `w`, `to` and the kept tokens of `text` |
| `JavaStrings.SplitTwoWordsThenText` | src/Server.java:151 | the pieces of `w to text` are `w`, `to` and the pieces of `text` |
| `JavaStrings.CommandWithTwoWords` | src/Server.java:151-181 | for `/whisper to text`, the tokens start with the command and the target, there are at least three exactly when `text` is not blank, and the whisper body is `text` without trailing spaces followed by one space |
| `JavaStrings.FirstPiece` | src/Server.java:151 | the first piece of a split is the longest prefix without a space, and it is the whole string exactly when there is one piece |
| `JavaStrings.FirstToken` | src/Server.java:151-153 | a frame that does not start with a space has a non-empty first token, namely its prefix up to the first space |
| `ChatServer.CommandTokens` | src/Server.java:151-153 | the tokens of a command frame are its Java split, never empty, with a non-empty first token |
| `ChatServer.OnlyDisconnectSendsSentinel` | src/Server.java:227 | none of the layouts, the prompt, the refusals, the usage line or the `/list` reply is the `/close` sentinel, so only a disconnection sends it |
| `ChatServer.FirstFree` | src/Server.java:65-69 | the position of the first offered name that is not registered: every earlier name is registered, and it is not |
| `ChatServer.FirstFreeAt` | src/Server.java:65-69 | any position where every earlier name is taken and that name is free is the first free position |
| `ChatServer.PromptsSnoc` | src/Server.java:67-68 | each rejected name adds its `already exists` line and a new prompt to the transcript |
| `ChatServer.NegotiationStep` | src/Server.java:66-69 | one more rejection extends the negotiation transcript by exactly the rejection and a prompt, and the next offered name is the next frame |
| `ChatServer.Leaves` | src/Server.java:93-95 | the leave notices for a sequence of names, one per name, in order |
| `ChatServer.LeavesSnoc` | src/Server.java:93-95 | one more disconnected name adds its leave notice at the end |
| `ChatServer.WhisperBody` | src/Server.java:176-181 | the loop builds exactly every token from index 2 on, each followed by a space |
| `ChatServer.UserList` | src/Server.java:190-198 | the reply is `connected users: `, then every registered name exactly once, each followed by a space, in some iteration order, then a newline |
| `ChatServer.SpaceTerminatedSnoc` | src/Server.java:193-196 | appending a name to the listing adds that name and a space |
| `ChatServer.OrderingSize` | src/Server.java:193-196 | a listing that names every key exactly once has as many entries as the registry has keys |
| `ChatServer.ClosingStep` | src/Server.java:93-95 | disconnecting one more connection during shutdown keeps the shutdown invariant, with that connection moved from pending to the end of the order |
| `ChatServer.ClosingStepOrder` | src/Server.java:93-95 | in a shutdown step, the disconnected names stay exactly the registered names of the connections no longer pending, without repetition |
| `ChatServer.ClosingStepDone` | src/Server.java:93-95 | in a shutdown step, each connection already disconnected keeps its frames, and the one disconnected now has the earlier leave notices and then the sentinel |
| `ChatServer.ClosingStepPending` | src/Server.java:93-95 | in a shutdown step, each still-pending open connection has received the leave notice of every connection disconnected so far, in order |
| `ChatServer.ClosingDone` | src/Server.java:93-96 | once none is pending, every registered connection was disconnected exactly once, in the returned order |
| `ChatServer.InputStream.ReadUTF` | src/Server.java:314 | a read takes the oldest unread frame, or fails when the peer has sent nothing more |
| `ChatServer.ClientHandler.constructor` | src/Server.java:298-303 | a new connection is open, has no name and has been sent nothing |
| `ChatServer.ClientHandler.SendMessage` | src/Server.java:326-330 | a frame is appended to an open connection's outbox; a closed connection's outbox is unchanged |
| `ChatServer.ClientHandler.Close` | src/Server.java:337-341 | afterwards the connection is closed and nothing else changed; closing twice is the same as closing once |
| `ChatServer.ClientHandler.PromptUserName` | src/Server.java:312-317 | sends the prompt, then reads the offered name and records it as the user name, or fails on a peer with nothing more to send |
| `ChatServer.Server.constructor` | src/Server.java:36-50 | the server starts accepting with an empty registry |
| `ChatServer.Server.SendToAllExcept` | src/Server.java:119-125 | every open registered connection except the excluded one receives the frame once; closed connections and names are unchanged |
| `ChatServer.Server.Broadcast` | src/Server.java:116-142 | a server line reaches every open registered connection as a server message; any other message reaches every open registered connection except the one registered under the sender's name; the registry is unchanged |
| `ChatServer.Server.SendTo` | src/Server.java:156-207 | among the registered connections, only the target receives the frame |
| `ChatServer.Server.DisconnectClient` | src/Server.java:221-235 | the name leaves the registry when asked (and only then), the client's last frame is `/close` and it is closed, and every other open registered connection receives its leave notice |
| `ChatServer.Server.HandleCommand` | src/Server.java:150-212 | `/quit` disconnects the sender. A short `/whisper` gives the sender the usage line. An unknown target gives the sender `no user with username: <to>`. A good whisper gives only the target `whisperMessage(from, body)`. `/list` gives only the sender the listing. Any other word gives the sender `unknown command: <word>`. Outside `/quit`, the registry is unchanged |
| `ChatServer.Server.Dispatch` | src/Server.java:363-368 | a frame starting with `/` is handled as a command; any other frame reaches everyone but the sender as a chat line from the sender, and the registry is unchanged |
| `ChatServer.Server.Serve` | src/Server.java:358-369 | a closed connection, or one with nothing to read, changes nothing; otherwise its oldest frame is consumed and dispatched |
| `ChatServer.Server.CloseNext` | src/Server.java:93-94 | one turn of the shutdown loop keeps the shutdown invariant and moves the disconnected connection to the end of the order |
| `ChatServer.Server.DisconnectAll` | src/Server.java:93-95 | every registered connection is disconnected once, in an order naming every key once; each open one receives the leave notices of those before it, then `/close`, and is closed; the registry is unchanged |
| `ChatServer.Server.Close` | src/Server.java:92-105 | afterwards the registry is empty, the server no longer accepts, and every previously registered connection is closed with the frames `DisconnectAll` describes |
| `ChatServer.Server.OperatorLine` | src/Server.java:262-271 | the loop stops exactly at `/close`, which shuts the server down; any other line starting with `/` changes nothing; any other line reaches every open registered connection as a server message |
| `ChatServer.Server.Negotiate` | src/Server.java:65-69 | the transcript is the prompt, then `<name> already exists` and a new prompt for each taken name offered; the result is the first free name offered, or none when the peer stops first |
| `ChatServer.Server.Register` | src/Server.java:71-75 | exactly one key, the free name, is added and maps to the new connection; every other open registered connection receives the join notice, and the joiner does not |
| `ChatServer.Server.Accept` | src/Server.java:58-78 | while accepting, a new connection is negotiated and, if it offers a free name, registered under the first free name and announced; otherwise the registry and every registered connection are unchanged |

## Left out

- Sockets and framing: `ServerSocket`, `Socket`, and the length-prefixed
  `readUTF`/`writeUTF` framing. Frames are abstract strings, and the frames a
  peer will send are the `InputStream` given when the connection is accepted.
- Threads: the thread pool and `threadPool.execute`. The model runs every
  operation as one atomic step. The source runs the accept loop, one receive
  loop per connection and the operator loop on separate threads that share
  `clients` without synchronization. So one operation can run in the middle
  of another. None of these interleavings is modelled:
  - a handler's broadcast iterating `clients.values()` (src/Server.java:131)
    while the accept thread puts a name (:72) or another handler removes one
    (:225);
  - the shutdown loop (:93) racing a `/quit`;
  - the `ConcurrentModificationException` that such a change during iteration
    can raise, which no `IOException` handler catches, so it ends that thread;
  - a handler that starts before its name is put into the registry (:71-72).
- Input polling: the busy-wait on `input.available()`. `Serve` is one turn of
  the receive loop, and "nothing to read" changes nothing.
- The operator's `Scanner` on `System.in`. Each typed line is a parameter of
  `OperatorLine`.
- I/O errors: the `IOException` paths and the error branch of the receive
  loop (src/Server.java:370-373). Sends to open connections always succeed. A
  failed `/close` send, which in the source skips the leave broadcast
  (src/Server.java:227-233), is therefore not modelled.
- Console output and process exit: `System.out`/`System.err` logging, the echo
  of every broadcast on the server console (src/Server.java:141), the
  operator's "only /close" notice (src/Server.java:264) and `System.exit`.
- The closing of the listening socket is the `accepting` flag. An accept after
  shutdown returns no connection.
- Null names are modelled as the empty string:
  - the server's own broadcasts pass a null user name, which the server-line
    branch never reads;
  - a new connection's user name is null until it offers one
    (src/Server.java:302), and the `ClientHandler` constructor sets it to `""`.
- Unregistered connections: a connection whose negotiation fails is returned
  by `Accept` and not registered. The source simply drops it.
- Hash map order: it is not modelled as a function. Loops take any remaining
  entry and return the order they used as ghost output.
- `ChatServer.Server.Serve`: the model takes the frame off the input after
  dispatching it, not before. Dispatch never reads an input, so the effect is
  the same.
- `src/Client.java`: the client program is not part of this model, apart from
  the `/close` sentinel it recognises.
