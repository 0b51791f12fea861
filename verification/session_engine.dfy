/**
 One client connection on the leader (server.py `client_thread` and the
 `welcome`, `create_user`, `login` and `update` calls it makes), as pure
 functions from the shared state and the scripted sequence of messages the
 client sends to the new shared state and the trace of messages the server
 sends. The self-recursive re-prompts of the source are recursion on the
 remaining input here, and the login attempt counter is an argument.
 */
module SessionEngine {
  import opened Base
  import opened Text
  import opened UserStore
  import opened WireCodec

  /** How many wrong usernames or passwords one login sub-flow tolerates. */
  const LoginAttempts: nat := 3

  /** What the server sends a client. Prompts and notices are named instead of spelled out. */
  datatype Msg =
    | Greeting(text: string)
    | WelcomeMenu
    | InvalidChoice(choice: int)
    | AskNewUsername
    | AskNewPassword
    | Created(name: string)
    | Taken(name: string)
    | AskUsername
    | AskPassword
    | LoggedIn
    | NoQueuedMail
    | UnreadMail(name: string)
    | Mail(text: string)
    | IncorrectPassword
    | UnknownUsername(name: string)
    | AttemptsLeft(count: nat)
    | BackToWelcome
    | ChatroomBanner
    | AllUsersHeader
    | UserLine(index: nat, name: string)
    | MainMenu
    | AskRecipient
    | NoSuchTarget(name: string)
    | AskMessage
    | DeliveredLive
    | DeliveredToMailbox
    | AskConfirm
    | InvalidOption(choice: int)

  /**
   One observable effect: a message on a client socket, or one `update`
   call, which sends each of its records to every backup in turn.
   */
  datatype Event = Send(to: Sock, msg: Msg) | Replicate(records: seq<string>)

  /** The state sessions share: the account registry and the list of open client sockets. */
  datatype Server = Server(store: Store, active: set<Sock>)

  /** The registry is well formed and the session's own socket is still open. */
  ghost predicate Live(srv: Server, sock: Sock) {
    Valid(srv.store) && sock in srv.active
  }

  /**
   A `recv` that returns nothing: the client closed the connection. A
   script that has run out is read the same way.
   */
  predicate PeerClosed(inp: seq<string>) {
    |inp| == 0 || inp[0] == ""
  }

  /** The input after one `recv`. */
  function Rest(inp: seq<string>): seq<string> {
    if |inp| == 0 then [] else inp[1..]
  }

  /** `remove_connection`: the socket leaves the open list; its assertion is the requires. */
  function RemoveConnection(srv: Server, sock: Sock): (t: Server)
    requires sock in srv.active
    ensures t.store == srv.store && sock !in t.active && t.active + {sock} == srv.active
  {
    srv.(active := srv.active - {sock})
  }

  /** The effect of one `update` call on the current registry. */
  function UpdateEvent(srv: Server): Event
    requires Valid(srv.store)
  {
    Replicate(UpdateMessages(srv.store))
  }

  /** The exceptions that end a client thread outright. */
  datatype Fault =
    | NotAnInteger      // `int()` of a non-numeric welcome choice
    | UsernameUnbound   // `return username` after an invalid welcome choice

  /** How the welcome flow ends: a username, None after a disconnect, or an exception. */
  datatype Outcome = Authenticated(user: string) | Closed | Crashed(fault: Fault)

  /** A finished sub-flow: the shared state after it, what it sent, the unread input, and its outcome. */
  datatype Run = Run(srv: Server, out: seq<Event>, rest: seq<string>, outcome: Outcome)

  ghost predicate Suffix(r: seq<string>, s: seq<string>) {
    |r| <= |s| && r == s[|s| - |r|..]
  }

  /**
   The registry only grows during the welcome flows: existing accounts stay
   listed in place and keep their passwords.
   */
  ghost predicate Grows(s: Store, t: Store) {
    && Valid(t)
    && s.names <= t.names
    && forall n :: n in s.accounts ==> n in t.accounts && t.accounts[n].password == s.accounts[n].password
  }

  /**
   What every welcome sub-flow guarantees about the shared state it hands
   back: the registry is well formed; no other session's socket is touched;
   a disconnect changes nothing but closes the socket; a session that gets
   a username is bound to it with an empty mailbox.
   */
  ghost predicate FlowPost(srv: Server, sock: Sock, r: Run) {
    && Valid(r.srv.store)
    && r.srv.active - {sock} == srv.active - {sock}
    && (r.outcome.Closed? ==> r.srv.store == srv.store && sock !in r.srv.active)
    && (r.outcome.Authenticated? ==>
          var u := r.outcome.user;
          && sock in r.srv.active
          && u in r.srv.store.accounts
          && r.srv.store.accounts[u].socket == Some(sock)
          && r.srv.store.accounts[u].mailbox == [])
  }

  /**
   What every welcome sub-flow guarantees about the rest: input is consumed
   in order, the registry only grows, and when a username comes out no
   account but its own changed, and that one is either new and last in the
   listing order or was already listed.
   */
  ghost predicate FlowFrame(srv: Server, inp: seq<string>, r: Run) {
    RunFrame(srv.store, inp, r.srv.store, r.rest, r.outcome)
  }

  ghost predicate RunFrame(s: Store, inp: seq<string>, t: Store, rest: seq<string>, outcome: Outcome) {
    && Grows(s, t)
    && Suffix(rest, inp)
    && (outcome.Authenticated? ==>
          && SameExcept(s, t, outcome.user)
          && (t.names == s.names || t.names == s.names + [outcome.user]))
  }

  /** Messages sent before a sub-flow ran, followed by the sub-flow's own. */
  function Prepend(prefix: seq<Event>, r: Run): (t: Run)
    ensures t.srv == r.srv && t.rest == r.rest && t.outcome == r.outcome
    ensures |t.out| == |prefix| + |r.out| && t.out[..|prefix|] == prefix && t.out[|prefix|..] == r.out
  {
    Run(r.srv, prefix + r.out, r.rest, r.outcome)
  }

  /** After a create or login returns: `update` runs unless an exception is propagating. */
  function AfterChoice(prefix: seq<Event>, r: Run): (t: Run)
    requires Valid(r.srv.store)
    ensures t.srv == r.srv && t.rest == r.rest && t.outcome == r.outcome
    ensures |t.out| >= |prefix| && t.out[..|prefix|] == prefix
  {
    if r.outcome.Crashed? then Run(r.srv, prefix + r.out, r.rest, r.outcome)
    else Run(r.srv, prefix + r.out + [UpdateEvent(r.srv)], r.rest, r.outcome)
  }

  /**
   `welcome`: 1 creates an account, 2 logs in. A non-numeric choice raises
   out of the thread. Any other number re-enters the welcome flow and,
   once that returns, raises because `username` was never bound.
   */
  function Welcome(srv: Server, sock: Sock, inp: seq<string>): (r: Run)
    requires Live(srv, sock)
    ensures FlowPost(srv, sock, r)
    ensures |r.out| > 0 && r.out[0] == Send(sock, WelcomeMenu)
    ensures !PeerClosed(inp) && ParseInt(inp[0]).None? ==> r.outcome == Crashed(NotAnInteger) && r.srv == srv
    ensures !PeerClosed(inp) && ParseInt(inp[0]).Some? && ParseInt(inp[0]).value !in {1, 2} ==> r.outcome.Crashed?
    decreases |inp|, 2
  {
    var menu := [Send(sock, WelcomeMenu)];
    if PeerClosed(inp) then Run(RemoveConnection(srv, sock), menu, Rest(inp), Closed)
    else match ParseInt(inp[0])
      case None => Run(srv, menu, inp[1..], Crashed(NotAnInteger))
      case Some(choice) =>
        if choice == 1 then AfterChoice(menu, Create(srv, sock, inp[1..]))
        else if choice == 2 then AfterChoice(menu, Login(srv, sock, inp[1..], 1))
        else
          var r := Welcome(srv, sock, inp[1..]);
          var out := menu + [Send(sock, InvalidChoice(choice))] + r.out;
          if r.outcome.Crashed? then Run(r.srv, out, r.rest, r.outcome)
          else Run(r.srv, out + [UpdateEvent(r.srv)], r.rest, Crashed(UsernameUnbound))
  }

  /**
   `create_user`: a taken username is reported and the sub-flow starts
   again; a new one is registered with the password sent next.
   */
  function Create(srv: Server, sock: Sock, inp: seq<string>): (r: Run)
    requires Live(srv, sock)
    ensures FlowPost(srv, sock, r)
    ensures !r.outcome.Crashed?
    ensures r.outcome.Authenticated? ==> r.outcome.user !in srv.store.accounts
    decreases |inp|, 0
  {
    var ask := [Send(sock, AskNewUsername)];
    if PeerClosed(inp) then Run(RemoveConnection(srv, sock), ask, Rest(inp), Closed)
    else
      var name := Strip(inp[0]);
      if name in srv.store.accounts then
        Prepend(ask + [Send(sock, Taken(name))], Create(srv, sock, inp[1..]))
      else
        var rest := inp[1..];
        var ask2 := ask + [Send(sock, AskNewPassword)];
        if PeerClosed(rest) then Run(RemoveConnection(srv, sock), ask2, Rest(rest), Closed)
        else
          var store := CreateAccount(srv.store, name, Strip(rest[0]), sock).value;
          Run(srv.(store := store), ask2 + [Send(sock, Created(name))], rest[1..], Authenticated(name))
  }

  /** The queued messages, each sent on the session's socket, in mailbox order. */
  function Deliveries(sock: Sock, mail: seq<string>): seq<Event>
    decreases |mail|
  {
    if |mail| == 0 then [] else [Send(sock, Mail(mail[0]))] + Deliveries(sock, mail[1..])
  }

  /** What a successful login sends after the success notice (server.py:97-105). */
  function MailNotice(sock: Sock, name: string, mail: seq<string>): seq<Event> {
    if |mail| == 0 then [Send(sock, NoQueuedMail)] else [Send(sock, UnreadMail(name))] + Deliveries(sock, mail)
  }

  /**
   `login` at attempt number `attempt`: an unknown username or a wrong
   password is a failed attempt; a right pair binds the session and drains
   the mailbox.
   */
  function Login(srv: Server, sock: Sock, inp: seq<string>, attempt: nat): (r: Run)
    requires Live(srv, sock) && 1 <= attempt <= LoginAttempts
    ensures FlowPost(srv, sock, r)
    decreases |inp|, 1
  {
    var ask := [Send(sock, AskUsername)];
    if PeerClosed(inp) then Run(RemoveConnection(srv, sock), ask, Rest(inp), Closed)
    else
      var name := Strip(inp[0]);
      if name !in srv.store.accounts then
        Retry(srv, sock, inp[1..], attempt, ask + [Send(sock, UnknownUsername(name))])
      else
        var rest := inp[1..];
        var ask2 := ask + [Send(sock, AskPassword)];
        if PeerClosed(rest) then Run(RemoveConnection(srv, sock), ask2, Rest(rest), Closed)
        else match Authenticate(srv.store, name, Strip(rest[0]), sock)
          case Ok((store, mail)) =>
            Run(srv.(store := store), ask2 + [Send(sock, LoggedIn)] + MailNotice(sock, name, mail), rest[1..], Authenticated(name))
          case Err(_) =>
            Retry(srv, sock, rest[1..], attempt, ask2 + [Send(sock, IncorrectPassword)])
  }

  /**
   After a failed attempt: below the limit, say how many attempts remain
   and prompt again with the count one higher; at the limit, go back to the
   welcome flow.
   */
  function Retry(srv: Server, sock: Sock, inp: seq<string>, attempt: nat, prefix: seq<Event>): (r: Run)
    requires Live(srv, sock) && 1 <= attempt <= LoginAttempts
    ensures FlowPost(srv, sock, r)
    ensures |r.out| >= |prefix| && r.out[..|prefix|] == prefix
    decreases |inp|, 3
  {
    if attempt < LoginAttempts then
      Prepend(prefix + [Send(sock, AttemptsLeft(LoginAttempts - attempt))], Login(srv, sock, inp, attempt + 1))
    else
      Prepend(prefix + [Send(sock, BackToWelcome)], Welcome(srv, sock, inp))
  }

  /** The text a recipient receives: the sender's name in angle brackets, a space, then the body as sent. */
  function Tag(src: string, body: string): (text: string)
    ensures |text| == |src| + |body| + 3
    ensures text[..|src| + 3] == "<" + src + "> " && text[|src| + 3..] == body
  {
    "<" + src + "> " + body
  }

  /** How a message reached an existing recipient. */
  datatype Route = Direct(to: Sock) | Queued

  /** Reading the 'socket' key of an account that has none raises KeyError. */
  datatype DeliveryError = NoSocketKey

  /**
   Delivery to an existing recipient (server.py:199-211): when the
   recipient's socket is open the tagged message goes straight to it and
   nothing changes; otherwise it goes on the end of the recipient's mailbox
   and nothing else changes. An account without a socket key (one a backup
   learned from a replication record) makes the lookup raise.
   */
  function Deliver(srv: Server, src: string, dst: string, body: string): (r: Result<(Server, Route), DeliveryError>)
    requires Valid(srv.store) && dst in srv.store.accounts
    ensures r.Err? <==> srv.store.accounts[dst].socket.None?
    ensures r.Ok? && r.value.1.Direct? ==>
      && r.value.0 == srv
      && srv.store.accounts[dst].socket == Some(r.value.1.to)
      && r.value.1.to in srv.active
    ensures r.Ok? && r.value.1.Queued? ==>
      && srv.store.accounts[dst].socket.value !in srv.active
      && r.value.0.active == srv.active
      && Valid(r.value.0.store)
      && r.value.0.store.names == srv.store.names
      && SameExcept(srv.store, r.value.0.store, dst)
      && r.value.0.store.accounts[dst]
         == srv.store.accounts[dst].(mailbox := srv.store.accounts[dst].mailbox + [Tag(src, body)])
  {
    match srv.store.accounts[dst].socket
    case None => Err(NoSocketKey)
    case Some(to) =>
      if to in srv.active then Ok((srv, Direct(to)))
      else Ok((srv.(store := Enqueue(srv.store, dst, Tag(src, body))), Queued))
  }

  /** `enumerate(users)`: one line per account, numbered from 0 in listing order. */
  function UserList(s: Store, sock: Sock): (lines: seq<Event>)
    ensures |lines| == |s.names|
    ensures forall i :: 0 <= i < |lines| ==> lines[i].Send? && lines[i].to == sock && lines[i].msg.UserLine? && lines[i].msg.index == i
  {
    seq(|s.names|, i requires 0 <= i < |s.names| => Send(sock, UserLine(i, s.names[i])))
  }

  /** How a client thread ends. */
  datatype End =
    | PeerLeft           // a `recv` came back empty and the socket was removed
    | Aborted            // an exception in the menu loop, caught by its bare `except`, and the socket removed
    | AccountDeleted     // the user confirmed deletion; account and socket removed
    | ThreadDied(fault: Fault)  // an exception escaped the thread; the socket is left as it was

  /** A finished client thread: the shared state it leaves, and everything it sent. */
  datatype Session = Session(srv: Server, out: seq<Event>, end: End)

  /**
   The menu loop never creates or rebinds an account and never changes a
   password; mailboxes only grow; the only account it removes is the
   user's own, and only when it ends by deletion.
   */
  ghost predicate MenuFrame(s: Store, t: Store, user: string, end: End) {
    && (forall n :: n in t.accounts ==> n in s.accounts)
    && (forall n :: n in s.accounts && !(n == user && end.AccountDeleted?) ==>
          && n in t.accounts
          && t.accounts[n].password == s.accounts[n].password
          && t.accounts[n].socket == s.accounts[n].socket
          && s.accounts[n].mailbox <= t.accounts[n].mailbox)
    && (end.AccountDeleted? ==> user in s.accounts && user !in t.accounts)
  }

  /**
   What every turn of the menu loop guarantees, up to the end of the
   session: the registry stays well formed, the session's socket and only
   it is closed, and no exception escapes the thread.
   */
  ghost predicate MenuPost(srv: Server, sock: Sock, r: Session) {
    && Valid(r.srv.store)
    && r.srv.active == srv.active - {sock}
    && !r.end.ThreadDied?
  }

  /**
   The menu loop of `client_thread` for the logged-in `user`: 1 sends a
   message, 2 lists the users, 3 deletes the account after `confirm`,
   anything else is reported as invalid. Every exception inside the loop
   ends the session through the bare `except`, so the loop always closes
   its socket and never kills the thread.
   */
  function Menu(srv: Server, sock: Sock, user: string, inp: seq<string>): (r: Session)
    requires Live(srv, sock)
    ensures MenuPost(srv, sock, r)
    decreases |inp|, 0
  {
    var menu := [Send(sock, MainMenu)];
    if PeerClosed(inp) then Session(RemoveConnection(srv, sock), menu, PeerLeft)
    else match ParseInt(inp[0])
      case None => Session(RemoveConnection(srv, sock), menu, Aborted)
      case Some(choice) =>
        if choice == 1 then SendTurn(srv, sock, user, inp[1..], menu)
        else if choice == 2 then
          Continue(srv, sock, user, inp[1..], menu + [Send(sock, AllUsersHeader)] + UserList(srv.store, sock), true)
        else if choice == 3 then DeleteTurn(srv, sock, user, inp[1..], menu)
        else Continue(srv, sock, user, inp[1..], menu + [Send(sock, InvalidOption(choice))], true)
  }

  /** Menu choice 1: ask for a recipient, then for the message, and deliver it. */
  function SendTurn(srv: Server, sock: Sock, user: string, inp: seq<string>, prefix: seq<Event>): (r: Session)
    requires Live(srv, sock)
    ensures MenuPost(srv, sock, r)
    decreases |inp|, 2
  {
    var ask := prefix + [Send(sock, AskRecipient)];
    if PeerClosed(inp) then Session(RemoveConnection(srv, sock), ask, PeerLeft)
    else
      var dst := Strip(inp[0]);
      if dst !in srv.store.accounts then
        Continue(srv, sock, user, inp[1..], ask + [Send(sock, NoSuchTarget(dst))], false)
      else
        var ask2 := ask + [Send(sock, AskMessage)];
        var rest := inp[1..];
        if PeerClosed(rest) then Session(RemoveConnection(srv, sock), ask2, PeerLeft)
        else match Deliver(srv, user, dst, rest[0])
          case Err(_) => Session(RemoveConnection(srv, sock), ask2, Aborted)
          case Ok((next, route)) =>
            Continue(next, sock, user, rest[1..], ask2 + DeliveryNotice(sock, user, rest[0], route), true)
  }

  /**
   What a delivery sends: the tagged message to the recipient's socket and
   a notice to the sender, or only the notice when it was queued.
   */
  function DeliveryNotice(sock: Sock, user: string, body: string, route: Route): (out: seq<Event>)
    ensures |out| == if route.Direct? then 2 else 1
    ensures route.Direct? ==> out[0] == Send(route.to, Mail(Tag(user, body)))
    ensures out[|out| - 1] == Send(sock, if route.Direct? then DeliveredLive else DeliveredToMailbox)
  {
    if route.Direct? then [Send(route.to, Mail(Tag(user, body))), Send(sock, DeliveredLive)]
    else [Send(sock, DeliveredToMailbox)]
  }

  /** Menu choice 3: delete the account on `confirm`; any other answer changes nothing. */
  function DeleteTurn(srv: Server, sock: Sock, user: string, inp: seq<string>, prefix: seq<Event>): (r: Session)
    requires Live(srv, sock)
    ensures MenuPost(srv, sock, r)
    decreases |inp|, 2
  {
    var ask := prefix + [Send(sock, AskConfirm)];
    if PeerClosed(inp) then Session(RemoveConnection(srv, sock), ask, PeerLeft)
    else if Strip(inp[0]) != "confirm" then Continue(srv, sock, user, inp[1..], ask, true)
    else if user !in srv.store.accounts then Session(RemoveConnection(srv, sock), ask, Aborted)
    else Session(RemoveConnection(srv.(store := Delete(srv.store, user)), sock), ask, AccountDeleted)
  }

  /**
   The next turn of the menu loop, after `update` unless the turn ended in
   `continue` (the unknown-recipient case).
   */
  function Continue(srv: Server, sock: Sock, user: string, inp: seq<string>, prefix: seq<Event>, replicate: bool): (r: Session)
    requires Live(srv, sock)
    ensures MenuPost(srv, sock, r)
    ensures |r.out| >= |prefix| && r.out[..|prefix|] == prefix
    decreases |inp|, 1
  {
    var r := Menu(srv, sock, user, inp);
    var sync := if replicate then [UpdateEvent(srv)] else [];
    Session(r.srv, prefix + sync + r.out, r.end)
  }

  /** The addresses the leader lists in its greeting: all but its own, the first. */
  function Backups(serverAddrs: seq<string>): seq<string> {
    if |serverAddrs| == 0 then [] else serverAddrs[1..]
  }

  /**
   `client_thread`: greet the client with the backup list, run the welcome
   flow, list the users and run the menu loop. A thread ends with its
   socket still open only when an exception escaped it.
   */
  function ClientThread(srv: Server, sock: Sock, serverAddrs: seq<string>, inp: seq<string>): (r: Session)
    requires Live(srv, sock)
    ensures Valid(r.srv.store)
    ensures r.srv.active - {sock} == srv.active - {sock}
    ensures !r.end.ThreadDied? ==> sock !in r.srv.active
    ensures |r.out| >= 2 && r.out[0] == Send(sock, Greeting(ServerGreeting(Backups(serverAddrs))))
    ensures r.out[1] == Send(sock, WelcomeMenu)
  {
    var w := Welcome(srv, sock, inp);
    var opening := [Send(sock, Greeting(ServerGreeting(Backups(serverAddrs))))] + w.out;
    var after: Session :=
      match w.outcome
      case Crashed(f) => Session(w.srv, [], ThreadDied(f))
      case Closed => Session(w.srv, [], PeerLeft)
      case Authenticated(user) =>
        var m := Menu(w.srv, sock, user, w.rest);
        Session(m.srv, [Send(sock, ChatroomBanner)] + UserList(w.srv.store, sock) + m.out, m.end);
    assert (opening + after.out)[1] == w.out[0];
    Session(after.srv, opening + after.out, after.end)
  }
}
