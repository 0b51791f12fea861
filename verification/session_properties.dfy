/**
 Properties of one session that relate several runs of the session
 functions: what a fresh or a taken username does to account creation, the
 in-order mailbox drain of a successful login, the bound on login
 attempts, and the effect of each menu choice on the registry.
 */
module SessionProperties {
  import opened Base
  import opened Text
  import opened UserStore
  import opened WireCodec
  import opened SessionEngine
  import opened SessionFrames

  /**
   A fresh username followed by a password registers the account, bound to
   the session, with an empty mailbox, at the end of the listing order.
   */
  lemma CreateRegistersFreshName(srv: Server, sock: Sock, inp: seq<string>)
    requires Live(srv, sock) && |inp| >= 2 && inp[0] != "" && inp[1] != ""
    requires Strip(inp[0]) !in srv.store.accounts
    ensures var r := Create(srv, sock, inp);
      && r.outcome == Authenticated(Strip(inp[0]))
      && r.rest == inp[2..]
      && r.srv.active == srv.active
      && r.srv.store.names == srv.store.names + [Strip(inp[0])]
      && r.srv.store.accounts == srv.store.accounts[Strip(inp[0]) := Account(Strip(inp[1]), Some(sock), [])]
      && r.out == [Send(sock, AskNewUsername), Send(sock, AskNewPassword), Send(sock, Created(Strip(inp[0])))]
  {
    assert inp[1..][0] == inp[1] && inp[1..][1..] == inp[2..];
  }

  /**
   A taken username is reported and the create sub-flow starts over on the
   next input; the account that holds the name is never replaced.
   */
  lemma CreateRepromptsOnTakenName(srv: Server, sock: Sock, inp: seq<string>)
    requires Live(srv, sock) && |inp| >= 1 && inp[0] != "" && Strip(inp[0]) in srv.store.accounts
    ensures var r := Create(srv, sock, inp);
      var again := Create(srv, sock, inp[1..]);
      && r.srv == again.srv && r.rest == again.rest && r.outcome == again.outcome
      && r.out == [Send(sock, AskNewUsername)] + [Send(sock, Taken(Strip(inp[0])))] + again.out
      && Strip(inp[0]) in r.srv.store.accounts
      && r.srv.store.accounts[Strip(inp[0])] == srv.store.accounts[Strip(inp[0])]
  {
    var again := Create(srv, sock, inp[1..]);
    if again.outcome.Authenticated? {
      CreateFrame(srv, sock, inp[1..]);
    }
  }

  /** The texts of the queued-mail messages in a trace, in the order they were sent. */
  function MailTexts(out: seq<Event>): (texts: seq<string>)
    ensures |texts| <= |out|
    decreases |out|
  {
    if |out| == 0 then []
    else (if out[0].Send? && out[0].msg.Mail? then [out[0].msg.text] else []) + MailTexts(out[1..])
  }

  lemma {:induction false} MailTextsAppend(a: seq<Event>, b: seq<Event>)
    ensures MailTexts(a + b) == MailTexts(a) + MailTexts(b)
    decreases |a|
  {
    if |a| > 0 {
      MailTextsAppend(a[1..], b);
      assert (a + b)[0] == a[0];
      assert (a + b)[1..] == a[1..] + b;
    } else {
      assert a + b == b;
    }
  }

  /** The drain sends exactly the queued messages, in queue order, all on the session's socket. */
  lemma {:induction false} DeliveriesCarryMailbox(sock: Sock, mail: seq<string>)
    ensures MailTexts(Deliveries(sock, mail)) == mail
    ensures forall i :: 0 <= i < |Deliveries(sock, mail)| ==> Deliveries(sock, mail)[i].Send? && Deliveries(sock, mail)[i].to == sock
    decreases |mail|
  {
    if |mail| > 0 {
      var one := [Send(sock, Mail(mail[0]))];
      var d := Deliveries(sock, mail[1..]);
      DeliveriesCarryMailbox(sock, mail[1..]);
      assert Deliveries(sock, mail) == one + d;
      assert MailTexts(one) == [mail[0]] by { assert one[1..] == []; }
      MailTextsAppend(one, d);
      assert [mail[0]] + mail[1..] == mail;
    }
  }

  /**
   A right username and password, at any attempt, log the session in: the
   account is bound to the session's socket, every queued message is sent
   on it in the order it was queued, and the mailbox is empty afterwards.
   */
  lemma LoginDeliversMailboxInOrder(srv: Server, sock: Sock, inp: seq<string>, k: nat)
    requires Live(srv, sock) && 1 <= k <= LoginAttempts && |inp| >= 2 && inp[0] != "" && inp[1] != ""
    requires Strip(inp[0]) in srv.store.accounts && Strip(inp[1]) == srv.store.accounts[Strip(inp[0])].password
    ensures var r := Login(srv, sock, inp, k);
      var before := srv.store.accounts[Strip(inp[0])];
      && r.outcome == Authenticated(Strip(inp[0]))
      && r.rest == inp[2..]
      && r.srv.store.accounts[Strip(inp[0])] == before.(socket := Some(sock), mailbox := [])
      && MailTexts(r.out) == before.mailbox
      && (forall i :: 0 <= i < |r.out| ==> r.out[i].Send? && r.out[i].to == sock)
  {
    var name := Strip(inp[0]);
    var mail := srv.store.accounts[name].mailbox;
    var head := [Send(sock, AskUsername), Send(sock, AskPassword), Send(sock, LoggedIn)];
    LoginAccepts(srv, sock, inp, k);
    PromptsCarryNoMail(sock);
    SuccessNoticeCarriesMailbox(sock, name, head, mail);
  }

  /** The prompts and the success notice before the mailbox carry no mail, all on the session's socket. */
  lemma PromptsCarryNoMail(sock: Sock)
    ensures var head := [Send(sock, AskUsername), Send(sock, AskPassword), Send(sock, LoggedIn)];
      && MailTexts(head) == []
      && forall i :: 0 <= i < |head| ==> head[i].Send? && head[i].to == sock
  {
    var head := [Send(sock, AskUsername), Send(sock, AskPassword), Send(sock, LoggedIn)];
    assert MailTexts(head[3..]) == [];
    assert MailTexts(head[2..]) == [] by { assert head[2..][1..] == head[3..]; }
    assert MailTexts(head[1..]) == [] by { assert head[1..][1..] == head[2..]; }
  }

  /** The run of a login that is given a right username and password. */
  lemma LoginAccepts(srv: Server, sock: Sock, inp: seq<string>, k: nat)
    requires Live(srv, sock) && 1 <= k <= LoginAttempts && |inp| >= 2 && inp[0] != "" && inp[1] != ""
    requires Strip(inp[0]) in srv.store.accounts && Strip(inp[1]) == srv.store.accounts[Strip(inp[0])].password
    ensures var name := Strip(inp[0]);
      var auth := Authenticate(srv.store, name, Strip(inp[1]), sock);
      && auth.Ok?
      && Login(srv, sock, inp, k)
         == Run(srv.(store := auth.value.0),
                [Send(sock, AskUsername), Send(sock, AskPassword), Send(sock, LoggedIn)] + MailNotice(sock, name, auth.value.1),
                inp[2..], Authenticated(name))
  {
    var name := Strip(inp[0]);
    var auth := Authenticate(srv.store, name, Strip(inp[1]), sock);
    LoginRightPassword(srv, sock, inp, k);
    TailOfTail(inp, 1);
    ThreeEvents(Send(sock, AskUsername), Send(sock, AskPassword), Send(sock, LoggedIn), MailNotice(sock, name, auth.value.1));
  }

  lemma LoginRightPassword(srv: Server, sock: Sock, inp: seq<string>, k: nat)
    requires Live(srv, sock) && 1 <= k <= LoginAttempts && |inp| > 1 && inp[0] != "" && inp[1..][0] != ""
    requires Strip(inp[0]) in srv.store.accounts && Strip(inp[1..][0]) == srv.store.accounts[Strip(inp[0])].password
    ensures var auth := Authenticate(srv.store, Strip(inp[0]), Strip(inp[1..][0]), sock);
      && auth.Ok?
      && Login(srv, sock, inp, k)
         == Run(srv.(store := auth.value.0),
                [Send(sock, AskUsername)] + [Send(sock, AskPassword)] + [Send(sock, LoggedIn)] + MailNotice(sock, Strip(inp[0]), auth.value.1),
                inp[1..][1..], Authenticated(Strip(inp[0])))
  {
    var rest := inp[1..];
    assert !PeerClosed(inp) && !PeerClosed(rest);
    assert Authenticate(srv.store, Strip(inp[0]), Strip(rest[0]), sock).Ok?;
  }

  /** What a successful login sends carries the mailbox, in order, all on the session's socket. */
  lemma SuccessNoticeCarriesMailbox(sock: Sock, name: string, head: seq<Event>, mail: seq<string>)
    requires MailTexts(head) == [] && forall i :: 0 <= i < |head| ==> head[i].Send? && head[i].to == sock
    ensures var out := head + MailNotice(sock, name, mail);
      && MailTexts(out) == mail
      && forall i :: 0 <= i < |out| ==> out[i].Send? && out[i].to == sock
  {
    DeliveriesCarryMailbox(sock, mail);
    MailTextsAppend(head, MailNotice(sock, name, mail));
    if |mail| > 0 {
      MailTextsAppend([Send(sock, UnreadMail(name))], Deliveries(sock, mail));
    }
  }

  /** One failed login attempt: an unknown username, or a known one with a wrong password. */
  ghost predicate FailedAttempt(s: Store, a: seq<string>) {
    || (|a| == 1 && a[0] != "" && Strip(a[0]) !in s.accounts)
    || (|a| == 2 && a[0] != "" && a[1] != "" && Strip(a[0]) in s.accounts
        && Strip(a[1]) != s.accounts[Strip(a[0])].password)
  }

  function Concat(xs: seq<seq<string>>): seq<string>
    decreases |xs|
  {
    if |xs| == 0 then [] else xs[0] + Concat(xs[1..])
  }

  lemma ConcatCons(xs: seq<seq<string>>, rest: seq<string>)
    requires |xs| > 0
    ensures Concat(xs) + rest == xs[0] + (Concat(xs[1..]) + rest)
    ensures |xs| == 1 ==> Concat(xs[1..]) + rest == rest
  {
    if |xs| == 1 {
      assert xs[1..] == [];
    }
  }

  /** `r` ends exactly as `w` does, after some output of its own. */
  ghost predicate EndsLike(r: Run, w: Run) {
    && r.srv == w.srv && r.rest == w.rest && r.outcome == w.outcome
    && |w.out| <= |r.out| && r.out[|r.out| - |w.out|..] == w.out
  }

  lemma EndsLikeTransitive(a: Run, b: Run, c: Run)
    requires EndsLike(a, b) && EndsLike(b, c)
    ensures EndsLike(a, c)
  {
    assert a.out[|a.out| - |c.out|..] == a.out[|a.out| - |b.out|..][|b.out| - |c.out|..];
  }

  /**
   A failed attempt below the limit reports the attempts left and prompts
   again with the count one higher; a failed attempt at the limit goes back
   to the welcome flow. Nothing changes in the registry either way.
   */
  lemma FailedAttemptAdvances(srv: Server, sock: Sock, a: seq<string>, rest: seq<string>, k: nat)
    requires Live(srv, sock) && 1 <= k <= LoginAttempts && FailedAttempt(srv.store, a)
    ensures var r := Login(srv, sock, a + rest, k);
      if k < LoginAttempts then
        EndsLike(r, Login(srv, sock, rest, k + 1)) && Send(sock, AttemptsLeft(LoginAttempts - k)) in r.out
      else
        EndsLike(r, Welcome(srv, sock, rest)) && Send(sock, BackToWelcome) in r.out
  {
    var prefix := FailureOutput(sock, a);
    FailedLogin(srv, sock, a, rest, k);
    if k < LoginAttempts {
      var note := Send(sock, AttemptsLeft(LoginAttempts - k));
      RetryAgain(srv, sock, rest, k, prefix);
      PrependEndsLike(prefix + [note], Login(srv, sock, rest, k + 1), note);
    } else {
      var note := Send(sock, BackToWelcome);
      RetryOver(srv, sock, rest, prefix);
      PrependEndsLike(prefix + [note], Welcome(srv, sock, rest), note);
    }
  }

  /** What a failed attempt sends before the retry: the prompts and the reason it failed. */
  function FailureOutput(sock: Sock, a: seq<string>): seq<Event>
    requires |a| > 0
  {
    if |a| == 1 then [Send(sock, AskUsername)] + [Send(sock, UnknownUsername(Strip(a[0])))]
    else [Send(sock, AskUsername)] + [Send(sock, AskPassword)] + [Send(sock, IncorrectPassword)]
  }

  /** A failed attempt is followed by a retry on the input after it. */
  lemma FailedLogin(srv: Server, sock: Sock, a: seq<string>, rest: seq<string>, k: nat)
    requires Live(srv, sock) && 1 <= k <= LoginAttempts && FailedAttempt(srv.store, a)
    ensures Login(srv, sock, a + rest, k) == Retry(srv, sock, rest, k, FailureOutput(sock, a))
  {
    var inp := a + rest;
    assert inp[0] == a[0];
    if |a| == 1 {
      assert inp[1..] == rest;
      LoginUnknownName(srv, sock, inp, k);
    } else {
      assert inp[1..][0] == a[1] && inp[1..][1..] == rest;
      LoginWrongPassword(srv, sock, inp, k);
    }
  }

  lemma LoginUnknownName(srv: Server, sock: Sock, inp: seq<string>, k: nat)
    requires Live(srv, sock) && 1 <= k <= LoginAttempts && |inp| > 0 && inp[0] != ""
    requires Strip(inp[0]) !in srv.store.accounts
    ensures Login(srv, sock, inp, k)
      == Retry(srv, sock, inp[1..], k, [Send(sock, AskUsername)] + [Send(sock, UnknownUsername(Strip(inp[0])))])
  {
  }

  lemma LoginWrongPassword(srv: Server, sock: Sock, inp: seq<string>, k: nat)
    requires Live(srv, sock) && 1 <= k <= LoginAttempts && |inp| > 1 && inp[0] != "" && inp[1..][0] != ""
    requires Strip(inp[0]) in srv.store.accounts && Strip(inp[1..][0]) != srv.store.accounts[Strip(inp[0])].password
    ensures Login(srv, sock, inp, k)
      == Retry(srv, sock, inp[1..][1..], k, [Send(sock, AskUsername)] + [Send(sock, AskPassword)] + [Send(sock, IncorrectPassword)])
  {
    var rest := inp[1..];
    assert !PeerClosed(inp) && !PeerClosed(rest);
    assert Authenticate(srv.store, Strip(inp[0]), Strip(rest[0]), sock).Err?;
  }

  lemma PrependEndsLike(prefix: seq<Event>, r: Run, x: Event)
    requires x in prefix
    ensures EndsLike(Prepend(prefix, r), r) && x in Prepend(prefix, r).out
  {
    var t := Prepend(prefix, r);
    var i :| 0 <= i < |prefix| && prefix[i] == x;
    assert t.out[..|prefix|][i] == x;
  }

  /**
   Login attempts are bounded: once the attempts from `k` up to the limit
   have all failed, the session is exactly where a fresh welcome flow on
   the remaining input would put it, with no further login prompt in
   between. From the first attempt (`k == 1`) that is after three failures.
   */
  lemma {:induction false} LoginGivesUpAfterLimit(srv: Server, sock: Sock, attempts: seq<seq<string>>, rest: seq<string>, k: nat)
    requires Live(srv, sock) && 1 <= k <= LoginAttempts && |attempts| == LoginAttempts - k + 1
    requires forall i :: 0 <= i < |attempts| ==> FailedAttempt(srv.store, attempts[i])
    ensures EndsLike(Login(srv, sock, Concat(attempts) + rest, k), Welcome(srv, sock, rest))
    decreases |attempts|
  {
    var a := attempts[0];
    var tail := Concat(attempts[1..]) + rest;
    ConcatCons(attempts, rest);
    FailedAttemptAdvances(srv, sock, a, tail, k);
    if k < LoginAttempts {
      LoginGivesUpAfterLimit(srv, sock, attempts[1..], rest, k + 1);
      EndsLikeTransitive(Login(srv, sock, a + tail, k), Login(srv, sock, tail, k + 1), Welcome(srv, sock, rest));
    }
  }

  /**
   Sending to a username that does not exist reports it, leaves every
   account as it was and carries on with the next menu turn, with no
   replication.
   */
  lemma MenuUnknownRecipient(srv: Server, sock: Sock, user: string, inp: seq<string>)
    requires Live(srv, sock) && |inp| >= 2 && ParseInt(inp[0]) == Some(1) && inp[1] != ""
    requires Strip(inp[1]) !in srv.store.accounts
    ensures var r := Menu(srv, sock, user, inp);
      var next := Menu(srv, sock, user, inp[2..]);
      && r.srv == next.srv && r.end == next.end
      && r.out == [Send(sock, MainMenu), Send(sock, AskRecipient), Send(sock, NoSuchTarget(Strip(inp[1])))] + next.out
  {
    var menu := [Send(sock, MainMenu)];
    MenuChoosesSend(srv, sock, user, inp);
    SendTurnUnknown(srv, sock, user, inp[1..], menu);
    TailOfTail(inp, 1);
    ContinueSkipping(srv, sock, user, inp[2..], menu + [Send(sock, AskRecipient)] + [Send(sock, NoSuchTarget(Strip(inp[1])))]);
    ThreeEvents(Send(sock, MainMenu), Send(sock, AskRecipient), Send(sock, NoSuchTarget(Strip(inp[1]))), Menu(srv, sock, user, inp[2..]).out);
  }

  /**
   Sending to an existing recipient whose account has a socket: the next
   menu turn runs on the state `Deliver` produced, after the tagged message
   went either straight to the recipient's open socket or onto the end of
   its mailbox.
   */
  lemma MenuSendsTagged(srv: Server, sock: Sock, user: string, inp: seq<string>)
    requires Live(srv, sock) && |inp| >= 3 && ParseInt(inp[0]) == Some(1) && inp[1] != "" && inp[2] != ""
    requires Strip(inp[1]) in srv.store.accounts && srv.store.accounts[Strip(inp[1])].socket.Some?
    ensures Deliver(srv, user, Strip(inp[1]), inp[2]).Ok?
    ensures var r := Menu(srv, sock, user, inp);
      var (next, route) := Deliver(srv, user, Strip(inp[1]), inp[2]).value;
      var after := Menu(next, sock, user, inp[3..]);
      && r.srv == after.srv && r.end == after.end
      && |after.out| < |r.out| && r.out[|r.out| - |after.out|..] == after.out
      && (route.Direct? ==> Send(route.to, Mail(Tag(user, inp[2]))) in r.out)
  {
    var menu := [Send(sock, MainMenu)];
    MenuChoosesSend(srv, sock, user, inp);
    assert inp[1..][0] == inp[1] && inp[1..][1] == inp[2];
    TailOfTail(inp, 1);
    TailOfTail(inp, 2);
    SendTurnTagged(srv, sock, user, inp[1..], menu);
  }

  /** A delivering send turn ends as the next menu turn does, with the message sent before it when the recipient is online. */
  lemma SendTurnTagged(srv: Server, sock: Sock, user: string, inp: seq<string>, prefix: seq<Event>)
    requires Live(srv, sock) && |inp| >= 2 && inp[0] != "" && inp[1] != "" && Strip(inp[0]) in srv.store.accounts
    requires srv.store.accounts[Strip(inp[0])].socket.Some?
    ensures Deliver(srv, user, Strip(inp[0]), inp[1]).Ok?
    ensures var r := SendTurn(srv, sock, user, inp, prefix);
      var (next, route) := Deliver(srv, user, Strip(inp[0]), inp[1]).value;
      var after := Menu(next, sock, user, inp[1..][1..]);
      && r.srv == after.srv && r.end == after.end
      && |after.out| < |r.out| && r.out[|r.out| - |after.out|..] == after.out
      && (route.Direct? ==> Send(route.to, Mail(Tag(user, inp[1]))) in r.out)
  {
    var (next, route) := Deliver(srv, user, Strip(inp[0]), inp[1]).value;
    var ask2 := prefix + [Send(sock, AskRecipient)] + [Send(sock, AskMessage)];
    SendTurnDelivered(srv, sock, user, inp, prefix);
    ContinueAfterNotice(next, sock, user, inp[1..][1..], ask2, DeliveryNotice(sock, user, inp[1], route));
  }

  /** The loop after a delivery ends as the next turn does, with the notice's first event sent before it. */
  lemma ContinueAfterNotice(srv: Server, sock: Sock, user: string, inp: seq<string>, ask: seq<Event>, notice: seq<Event>)
    requires Live(srv, sock) && |notice| > 0
    ensures var r := Continue(srv, sock, user, inp, ask + notice, true);
      var after := Menu(srv, sock, user, inp);
      && r.srv == after.srv && r.end == after.end
      && |after.out| < |r.out| && r.out[|r.out| - |after.out|..] == after.out
      && notice[0] in r.out
  {
    var after := Menu(srv, sock, user, inp);
    ContinueReplicating(srv, sock, user, inp, ask + notice);
    NoticeBeforeRest(Continue(srv, sock, user, inp, ask + notice, true), after, ask, notice, UpdateEvent(srv));
  }

  /** A session whose trace is prompts, a notice, one event and another session's trace ends as that session does. */
  lemma NoticeBeforeRest(r: Session, after: Session, ask: seq<Event>, notice: seq<Event>, sync: Event)
    requires |notice| > 0 && r == Session(after.srv, ask + notice + [sync] + after.out, after.end)
    ensures && r.srv == after.srv && r.end == after.end
      && |after.out| < |r.out| && r.out[|r.out| - |after.out|..] == after.out
      && notice[0] in r.out
  {
    EndsWith(ask + notice + [sync], after.out);
    InMiddle(notice[0], ask, notice, [sync] + after.out);
  }

  /** `confirm` removes the user's own account, and only it, and ends the session. */
  lemma MenuDeleteConfirmed(srv: Server, sock: Sock, user: string, inp: seq<string>)
    requires Live(srv, sock) && |inp| >= 2 && ParseInt(inp[0]) == Some(3) && Strip(inp[1]) == "confirm"
    requires user in srv.store.accounts
    ensures var r := Menu(srv, sock, user, inp);
      && r.end == AccountDeleted
      && user !in r.srv.store.accounts
      && SameExcept(srv.store, r.srv.store, user)
      && r.srv.active == srv.active - {sock}
  {
    MenuChoosesDelete(srv, sock, user, inp);
    DeleteConfirmedTurn(srv, sock, user, inp[1..], [Send(sock, MainMenu)]);
  }

  /** Any answer other than `confirm` changes nothing and the menu loop goes on. */
  lemma MenuDeleteDeclined(srv: Server, sock: Sock, user: string, inp: seq<string>)
    requires Live(srv, sock) && |inp| >= 2 && ParseInt(inp[0]) == Some(3) && inp[1] != "" && Strip(inp[1]) != "confirm"
    ensures var r := Menu(srv, sock, user, inp);
      var next := Menu(srv, sock, user, inp[2..]);
      && r.srv == next.srv && r.end == next.end
      && r.out == [Send(sock, MainMenu), Send(sock, AskConfirm), UpdateEvent(srv)] + next.out
  {
    var menu := [Send(sock, MainMenu)];
    MenuChoosesDelete(srv, sock, user, inp);
    DeleteDeclinedTurn(srv, sock, user, inp[1..], menu);
    TailOfTail(inp, 1);
    ContinueReplicating(srv, sock, user, inp[2..], menu + [Send(sock, AskConfirm)]);
    ThreeEvents(Send(sock, MainMenu), Send(sock, AskConfirm), UpdateEvent(srv), Menu(srv, sock, user, inp[2..]).out);
  }

  /** Welcome choice 1 runs `create_user` on the rest of the input, then `update`. */
  lemma WelcomeChoosesCreate(srv: Server, sock: Sock, inp: seq<string>)
    requires Live(srv, sock) && |inp| > 0 && ParseInt(inp[0]) == Some(1)
    ensures Welcome(srv, sock, inp) == AfterChoice([Send(sock, WelcomeMenu)], Create(srv, sock, inp[1..]))
  {
    assert !PeerClosed(inp);
  }

  /** Welcome choice 2 runs `login` from attempt 1 on the rest of the input, then `update`. */
  lemma WelcomeChoosesLogin(srv: Server, sock: Sock, inp: seq<string>)
    requires Live(srv, sock) && |inp| > 0 && ParseInt(inp[0]) == Some(2)
    ensures Welcome(srv, sock, inp) == AfterChoice([Send(sock, WelcomeMenu)], Login(srv, sock, inp[1..], 1))
  {
    assert !PeerClosed(inp);
  }

  /**
   Choosing to log in and then failing three times ends the welcome flow
   exactly where a fresh welcome flow on the remaining input ends: the
   same shared state, the same unread input and the same outcome.
   */
  lemma WelcomeLoginGivesUp(srv: Server, sock: Sock, choice: string, attempts: seq<seq<string>>, rest: seq<string>)
    requires Live(srv, sock) && ParseInt(choice) == Some(2) && |attempts| == LoginAttempts
    requires forall i :: 0 <= i < |attempts| ==> FailedAttempt(srv.store, attempts[i])
    ensures var r := Welcome(srv, sock, [choice] + (Concat(attempts) + rest));
      var w := Welcome(srv, sock, rest);
      r.srv == w.srv && r.rest == w.rest && r.outcome == w.outcome
  {
    var inp := [choice] + (Concat(attempts) + rest);
    assert inp[0] == choice && inp[1..] == Concat(attempts) + rest;
    WelcomeChoosesLogin(srv, sock, inp);
    LoginGivesUpAfterLimit(srv, sock, attempts, rest, 1);
  }

  /** Menu choice 1 hands the rest of the input to the send turn. */
  lemma MenuChoosesSend(srv: Server, sock: Sock, user: string, inp: seq<string>)
    requires Live(srv, sock) && |inp| > 0 && ParseInt(inp[0]) == Some(1)
    ensures Menu(srv, sock, user, inp) == SendTurn(srv, sock, user, inp[1..], [Send(sock, MainMenu)])
  {
    assert !PeerClosed(inp);
  }

  /** Menu choice 3 hands the rest of the input to the delete turn. */
  lemma MenuChoosesDelete(srv: Server, sock: Sock, user: string, inp: seq<string>)
    requires Live(srv, sock) && |inp| > 0 && ParseInt(inp[0]) == Some(3)
    ensures Menu(srv, sock, user, inp) == DeleteTurn(srv, sock, user, inp[1..], [Send(sock, MainMenu)])
  {
    assert !PeerClosed(inp);
  }

  lemma DeleteConfirmedTurn(srv: Server, sock: Sock, user: string, inp: seq<string>, prefix: seq<Event>)
    requires Live(srv, sock) && |inp| > 0 && inp[0] != "" && Strip(inp[0]) == "confirm" && user in srv.store.accounts
    ensures DeleteTurn(srv, sock, user, inp, prefix)
      == Session(RemoveConnection(srv.(store := Delete(srv.store, user)), sock), prefix + [Send(sock, AskConfirm)], AccountDeleted)
  {
  }

  /** Declining the deletion goes on with the loop after replicating. */
  lemma DeleteDeclinedTurn(srv: Server, sock: Sock, user: string, inp: seq<string>, prefix: seq<Event>)
    requires Live(srv, sock) && |inp| > 0 && inp[0] != "" && Strip(inp[0]) != "confirm"
    ensures DeleteTurn(srv, sock, user, inp, prefix) == Continue(srv, sock, user, inp[1..], prefix + [Send(sock, AskConfirm)], true)
  {
  }

  /** The rest of the loop after a turn that replicates: the turn's output, the replication, then the next turn. */
  lemma ContinueReplicating(srv: Server, sock: Sock, user: string, inp: seq<string>, prefix: seq<Event>)
    requires Live(srv, sock)
    ensures var m := Menu(srv, sock, user, inp);
      Continue(srv, sock, user, inp, prefix, true) == Session(m.srv, prefix + [UpdateEvent(srv)] + m.out, m.end)
  {
  }

  /** The rest of the loop after a turn that skips replication: the turn's output, then the next turn. */
  lemma ContinueSkipping(srv: Server, sock: Sock, user: string, inp: seq<string>, prefix: seq<Event>)
    requires Live(srv, sock)
    ensures var m := Menu(srv, sock, user, inp);
      Continue(srv, sock, user, inp, prefix, false) == Session(m.srv, prefix + m.out, m.end)
  {
    assert prefix + [] == prefix;
  }

  lemma TailOfTail(s: seq<string>, n: nat)
    requires n < |s|
    ensures s[n..][1..] == s[n + 1..]
  {
  }

  lemma ThreeEvents(a: Event, b: Event, c: Event, rest: seq<Event>)
    ensures [a] + [b] + [c] + rest == [a, b, c] + rest
  {
  }

  lemma EndsWith(a: seq<Event>, b: seq<Event>)
    ensures |a + b| - |b| == |a| && (a + b)[|a + b| - |b|..] == b
  {
  }

  lemma InMiddle(x: Event, a: seq<Event>, b: seq<Event>, c: seq<Event>)
    requires |b| > 0 && b[0] == x
    ensures x in a + b + c
  {
    assert (a + b + c)[|a|] == x;
  }

  /** The user listing names every account exactly once, numbered by position in the listing order. */
  lemma ListingNamesEachAccountOnce(s: Store, sock: Sock)
    requires Valid(s)
    ensures var lines := UserList(s, sock);
      && |lines| == |s.accounts|
      && (forall i :: 0 <= i < |lines| ==> lines[i].Send? && lines[i].msg.UserLine? && lines[i].msg.index == i)
      && (forall n :: n in s.accounts <==> exists i :: 0 <= i < |lines| && lines[i].msg.name == n)
      && (forall i, j :: 0 <= i < j < |lines| ==> lines[i].msg.name != lines[j].msg.name)
  {
    var lines := UserList(s, sock);
    DistinctCardinality(s);
    DistinctPairwise(s.names);
    forall n | n in s.accounts
      ensures exists i :: 0 <= i < |lines| && lines[i].msg.name == n
    {
      var i :| 0 <= i < |s.names| && s.names[i] == n;
      assert lines[i].msg.name == n;
    }
  }

  /** A valid store has as many accounts as listed names. */
  lemma {:induction false} DistinctCardinality(s: Store)
    requires Valid(s)
    ensures |s.accounts| == |s.names|
  {
    assert s.accounts.Keys == SetOf(s.names);
    DistinctSetSize(s.names);
  }

  function SetOf(xs: seq<string>): (r: set<string>)
    ensures forall x :: x in r <==> x in xs
  {
    set x | x in xs
  }

  lemma {:induction false} DistinctSetSize(xs: seq<string>)
    requires Distinct(xs)
    ensures |SetOf(xs)| == |xs|
    decreases |xs|
  {
    if |xs| > 0 {
      DistinctSetSize(xs[1..]);
      assert SetOf(xs) == SetOf(xs[1..]) + {xs[0]};
      assert xs[0] !in xs[1..];
    }
  }
}
