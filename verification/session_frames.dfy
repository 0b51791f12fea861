/**
 The frame of a session: what the welcome flows and the menu loop may and
 may not change in the shared registry, proved flow by flow along the same
 recursion the session functions take.
 */
module SessionFrames {
  import opened Base
  import opened Text
  import opened UserStore
  import opened SessionEngine

  /** A suffix of the input after one `recv` is a suffix of the input before it. */
  lemma SuffixOfTail(r: seq<string>, inp: seq<string>)
    requires |inp| > 0 && Suffix(r, inp[1..])
    ensures Suffix(r, inp)
  {
    assert inp[1..][|inp| - 1 - |r|..] == inp[|inp| - |r|..];
  }

  /** The input left after a disconnect is a suffix of the input. */
  lemma RestIsSuffix(inp: seq<string>)
    ensures Suffix(Rest(inp), inp)
  {
    if |inp| > 0 {
      assert inp[|inp| - |inp[1..]|..] == inp[1..];
    }
  }

  /**
   The welcome flow only adds accounts and never changes a password; it
   reads its input in order; a username that comes out of it is the only
   account that changed, either newly added last or already listed.
   */
  lemma {:induction false} WelcomeFrame(srv: Server, sock: Sock, inp: seq<string>)
    requires Live(srv, sock)
    ensures FlowFrame(srv, inp, Welcome(srv, sock, inp))
    decreases |inp|, 2
  {
    if PeerClosed(inp) {
      RestIsSuffix(inp);
    } else {
      match ParseInt(inp[0])
      case None =>
        RestIsSuffix(inp);
      case Some(choice) =>
        var r: Run;
        if choice == 1 {
          CreateFrame(srv, sock, inp[1..]);
          r := Create(srv, sock, inp[1..]);
        } else if choice == 2 {
          LoginFrame(srv, sock, inp[1..], 1);
          r := Login(srv, sock, inp[1..], 1);
        } else {
          WelcomeFrame(srv, sock, inp[1..]);
          r := Welcome(srv, sock, inp[1..]);
        }
        SuffixOfTail(r.rest, inp);
    }
  }

  /** The same frame for account creation. */
  lemma {:induction false} CreateFrame(srv: Server, sock: Sock, inp: seq<string>)
    requires Live(srv, sock)
    ensures FlowFrame(srv, inp, Create(srv, sock, inp))
    decreases |inp|, 0
  {
    if PeerClosed(inp) {
      RestIsSuffix(inp);
    } else if Strip(inp[0]) in srv.store.accounts {
      CreateFrame(srv, sock, inp[1..]);
      SuffixOfTail(Create(srv, sock, inp[1..]).rest, inp);
    } else {
      RestIsSuffix(inp[1..]);
      SuffixOfTail(Rest(inp[1..]), inp);
    }
  }

  /** The same frame for a login attempt. */
  lemma {:induction false} LoginFrame(srv: Server, sock: Sock, inp: seq<string>, attempt: nat)
    requires Live(srv, sock) && 1 <= attempt <= LoginAttempts
    ensures FlowFrame(srv, inp, Login(srv, sock, inp, attempt))
    decreases |inp|, 1
  {
    if PeerClosed(inp) {
      RestIsSuffix(inp);
    } else {
      var name := Strip(inp[0]);
      var ask := [Send(sock, AskUsername)];
      if name !in srv.store.accounts {
        RetryFrame(srv, sock, inp[1..], attempt, ask + [Send(sock, UnknownUsername(name))]);
        SuffixOfTail(Retry(srv, sock, inp[1..], attempt, ask + [Send(sock, UnknownUsername(name))]).rest, inp);
      } else {
        var rest := inp[1..];
        var ask2 := ask + [Send(sock, AskPassword)];
        RestIsSuffix(rest);
        SuffixOfTail(Rest(rest), inp);
        if !PeerClosed(rest) {
          match Authenticate(srv.store, name, Strip(rest[0]), sock)
          case Ok(_) =>
          case Err(_) =>
            var r := Retry(srv, sock, rest[1..], attempt, ask2 + [Send(sock, IncorrectPassword)]);
            RetryFrame(srv, sock, rest[1..], attempt, ask2 + [Send(sock, IncorrectPassword)]);
            SuffixOfTail(r.rest, rest);
            SuffixOfTail(r.rest, inp);
        }
      }
    }
  }

  /** The same frame after a failed attempt. */
  lemma {:induction false} RetryFrame(srv: Server, sock: Sock, inp: seq<string>, attempt: nat, prefix: seq<Event>)
    requires Live(srv, sock) && 1 <= attempt <= LoginAttempts
    ensures FlowFrame(srv, inp, Retry(srv, sock, inp, attempt, prefix))
    decreases |inp|, 4
  {
    if attempt < LoginAttempts {
      RetryAgainFrame(srv, sock, inp, attempt, prefix);
    } else {
      RetryOverFrame(srv, sock, inp, prefix);
    }
  }

  /** The frame of a failed attempt below the limit is the next attempt's. */
  lemma {:induction false} RetryAgainFrame(srv: Server, sock: Sock, inp: seq<string>, attempt: nat, prefix: seq<Event>)
    requires Live(srv, sock) && 1 <= attempt < LoginAttempts
    ensures FlowFrame(srv, inp, Retry(srv, sock, inp, attempt, prefix))
    decreases |inp|, 3
  {
    var next := attempt + 1;
    LoginFrame(srv, sock, inp, next);
    RetryAgainSameFrame(srv, sock, inp, attempt, prefix);
    assert FlowFrame(srv, inp, Login(srv, sock, inp, next));
  }

  /** The frame of the last failed attempt is the welcome flow's. */
  lemma {:induction false} RetryOverFrame(srv: Server, sock: Sock, inp: seq<string>, prefix: seq<Event>)
    requires Live(srv, sock)
    ensures FlowFrame(srv, inp, Retry(srv, sock, inp, LoginAttempts, prefix))
    decreases |inp|, 3
  {
    RetryOver(srv, sock, inp, prefix);
    WelcomeFrame(srv, sock, inp);
    PrependFrame(srv, inp, prefix + [Send(sock, BackToWelcome)], Welcome(srv, sock, inp));
  }

  /** Below the limit, a failed attempt says how many remain and the next attempt follows. */
  lemma RetryAgain(srv: Server, sock: Sock, inp: seq<string>, k: nat, prefix: seq<Event>)
    requires Live(srv, sock) && 1 <= k < LoginAttempts
    ensures Retry(srv, sock, inp, k, prefix)
      == Prepend(prefix + [Send(sock, AttemptsLeft(LoginAttempts - k))], Login(srv, sock, inp, k + 1))
  {
  }

  /** At the limit, a failed attempt goes back to the welcome flow. */
  lemma RetryOver(srv: Server, sock: Sock, inp: seq<string>, prefix: seq<Event>)
    requires Live(srv, sock)
    ensures Retry(srv, sock, inp, LoginAttempts, prefix) == Prepend(prefix + [Send(sock, BackToWelcome)], Welcome(srv, sock, inp))
  {
  }

  /** After a failed attempt with attempts left, the session is where the next attempt leaves it. */
  lemma RetryAgainState(srv: Server, sock: Sock, inp: seq<string>, attempt: nat, prefix: seq<Event>)
    requires Live(srv, sock) && 1 <= attempt < LoginAttempts
    ensures var t := Retry(srv, sock, inp, attempt, prefix);
      var l := Login(srv, sock, inp, attempt + 1);
      t.srv == l.srv && t.rest == l.rest && t.outcome == l.outcome
  {
  }

  /** A failed attempt with attempts left has the frame of the next attempt. */
  lemma RetryAgainSameFrame(srv: Server, sock: Sock, inp: seq<string>, attempt: nat, prefix: seq<Event>)
    requires Live(srv, sock) && 1 <= attempt < LoginAttempts
    ensures FlowFrame(srv, inp, Retry(srv, sock, inp, attempt, prefix)) == FlowFrame(srv, inp, Login(srv, sock, inp, attempt + 1))
  {
    RetryAgainState(srv, sock, inp, attempt, prefix);
    SameEndFrame(srv, inp, Retry(srv, sock, inp, attempt, prefix), Login(srv, sock, inp, attempt + 1));
  }

  /** Two runs that end in the same state have the same frame. */
  lemma SameEndFrame(srv: Server, inp: seq<string>, t: Run, r: Run)
    requires t.srv == r.srv && t.rest == r.rest && t.outcome == r.outcome
    ensures FlowFrame(srv, inp, t) == FlowFrame(srv, inp, r)
  {
  }

  /** Output sent before a sub-flow does not change its frame. */
  lemma PrependFrame(srv: Server, inp: seq<string>, prefix: seq<Event>, r: Run)
    ensures FlowFrame(srv, inp, Prepend(prefix, r)) == FlowFrame(srv, inp, r)
  {
  }

  /**
   A menu-loop frame can be extended: a turn that removes nothing, followed
   by the rest of the session, is framed as the rest of the session is.
   */
  lemma MenuFrameTrans(s: Store, m: Store, t: Store, user: string, end: End)
    requires MenuFrame(s, m, user, PeerLeft) && MenuFrame(m, t, user, end)
    ensures MenuFrame(s, t, user, end)
  {
  }

  /**
   The menu loop never creates or rebinds an account and never changes a
   password; mailboxes only grow; the only account it removes is the
   user's own, and only when the session ends by deletion.
   */
  lemma {:induction false} MenuKeeps(srv: Server, sock: Sock, user: string, inp: seq<string>)
    requires Live(srv, sock)
    ensures var r := Menu(srv, sock, user, inp);
      MenuFrame(srv.store, r.srv.store, user, r.end)
    decreases |inp|, 0
  {
    var menu := [Send(sock, MainMenu)];
    if !PeerClosed(inp) {
      match ParseInt(inp[0])
      case None =>
      case Some(choice) =>
        if choice == 1 {
          SendTurnKeeps(srv, sock, user, inp[1..], menu);
        } else if choice == 2 {
          ContinueKeeps(srv, sock, user, inp[1..], menu + [Send(sock, AllUsersHeader)] + UserList(srv.store, sock), true);
        } else if choice == 3 {
          DeleteTurnKeeps(srv, sock, user, inp[1..], menu);
        } else {
          ContinueKeeps(srv, sock, user, inp[1..], menu + [Send(sock, InvalidOption(choice))], true);
        }
    }
  }

  /** The same frame for a send-message turn and the rest of the session. */
  lemma {:induction false} SendTurnKeeps(srv: Server, sock: Sock, user: string, inp: seq<string>, prefix: seq<Event>)
    requires Live(srv, sock)
    ensures var r := SendTurn(srv, sock, user, inp, prefix);
      MenuFrame(srv.store, r.srv.store, user, r.end)
    decreases |inp|, 2
  {
    if !PeerClosed(inp) {
      var dst := Strip(inp[0]);
      if dst !in srv.store.accounts {
        UnknownTargetKeeps(srv, sock, user, inp, prefix);
      } else if !PeerClosed(inp[1..]) && srv.store.accounts[dst].socket.Some? {
        DeliveredKeeps(srv, sock, user, inp, prefix);
      }
    }
  }

  /** The same frame for a send to an unknown recipient and the rest of the session. */
  lemma {:induction false} UnknownTargetKeeps(srv: Server, sock: Sock, user: string, inp: seq<string>, prefix: seq<Event>)
    requires Live(srv, sock) && |inp| > 0 && inp[0] != "" && Strip(inp[0]) !in srv.store.accounts
    ensures var r := SendTurn(srv, sock, user, inp, prefix);
      MenuFrame(srv.store, r.srv.store, user, r.end)
    decreases |inp|, 1
  {
    SendTurnUnknown(srv, sock, user, inp, prefix);
    ContinueKeeps(srv, sock, user, inp[1..], prefix + [Send(sock, AskRecipient)] + [Send(sock, NoSuchTarget(Strip(inp[0])))], false);
  }

  /** The same frame for a delivered message and the rest of the session. */
  lemma {:induction false} DeliveredKeeps(srv: Server, sock: Sock, user: string, inp: seq<string>, prefix: seq<Event>)
    requires Live(srv, sock) && |inp| >= 2 && inp[0] != "" && inp[1] != "" && Strip(inp[0]) in srv.store.accounts
    requires srv.store.accounts[Strip(inp[0])].socket.Some?
    ensures var r := SendTurn(srv, sock, user, inp, prefix);
      MenuFrame(srv.store, r.srv.store, user, r.end)
    decreases |inp|, 1
  {
    var (next, route) := Deliver(srv, user, Strip(inp[0]), inp[1]).value;
    var p := prefix + [Send(sock, AskRecipient)] + [Send(sock, AskMessage)] + DeliveryNotice(sock, user, inp[1], route);
    SendTurnDelivered(srv, sock, user, inp, prefix);
    DeliverKeeps(srv, user, Strip(inp[0]), inp[1]);
    ContinueKeeps(next, sock, user, inp[1..][1..], p, true);
    var r := Continue(next, sock, user, inp[1..][1..], p, true);
    MenuFrameTrans(srv.store, next.store, r.srv.store, user, r.end);
  }

  /** A delivery removes, creates and rebinds nothing; it can only lengthen a mailbox. */
  lemma DeliverKeeps(srv: Server, user: string, dst: string, body: string)
    requires Valid(srv.store) && dst in srv.store.accounts && Deliver(srv, user, dst, body).Ok?
    ensures MenuFrame(srv.store, Deliver(srv, user, dst, body).value.0.store, user, PeerLeft)
  {
  }

  /** An unknown recipient is reported and the loop goes on without replicating. */
  lemma SendTurnUnknown(srv: Server, sock: Sock, user: string, inp: seq<string>, prefix: seq<Event>)
    requires Live(srv, sock) && |inp| > 0 && inp[0] != "" && Strip(inp[0]) !in srv.store.accounts
    ensures SendTurn(srv, sock, user, inp, prefix)
      == Continue(srv, sock, user, inp[1..], prefix + [Send(sock, AskRecipient)] + [Send(sock, NoSuchTarget(Strip(inp[0])))], false)
  {
  }

  /** A delivered message is followed by the rest of the loop on the state the delivery left. */
  lemma SendTurnDelivered(srv: Server, sock: Sock, user: string, inp: seq<string>, prefix: seq<Event>)
    requires Live(srv, sock) && |inp| >= 2 && inp[0] != "" && inp[1] != "" && Strip(inp[0]) in srv.store.accounts
    requires srv.store.accounts[Strip(inp[0])].socket.Some?
    ensures Deliver(srv, user, Strip(inp[0]), inp[1]).Ok?
    ensures var (next, route) := Deliver(srv, user, Strip(inp[0]), inp[1]).value;
      SendTurn(srv, sock, user, inp, prefix)
      == Continue(next, sock, user, inp[1..][1..],
                  prefix + [Send(sock, AskRecipient)] + [Send(sock, AskMessage)] + DeliveryNotice(sock, user, inp[1], route), true)
  {
    var rest := inp[1..];
    assert !PeerClosed(inp) && !PeerClosed(rest);
    assert Deliver(srv, user, Strip(inp[0]), rest[0]).Ok?;
  }

  /** The same frame for a delete turn and the rest of the session. */
  lemma {:induction false} DeleteTurnKeeps(srv: Server, sock: Sock, user: string, inp: seq<string>, prefix: seq<Event>)
    requires Live(srv, sock)
    ensures var r := DeleteTurn(srv, sock, user, inp, prefix);
      MenuFrame(srv.store, r.srv.store, user, r.end)
    decreases |inp|, 2
  {
    var ask := prefix + [Send(sock, AskConfirm)];
    if !PeerClosed(inp) && Strip(inp[0]) != "confirm" {
      ContinueKeeps(srv, sock, user, inp[1..], ask, true);
    }
  }

  /** The same frame for the rest of the session after a turn. */
  lemma {:induction false} ContinueKeeps(srv: Server, sock: Sock, user: string, inp: seq<string>, prefix: seq<Event>, replicate: bool)
    requires Live(srv, sock)
    ensures var r := Continue(srv, sock, user, inp, prefix, replicate);
      MenuFrame(srv.store, r.srv.store, user, r.end)
    decreases |inp|, 1
  {
    MenuKeeps(srv, sock, user, inp);
  }
}
