/**
 The backup branch of server.py's `main` loop: a replica that follows the
 leader, takes the leader's address list once per connection, applies the
 per-account records of every `update`, and, when the leader's socket
 closes, moves the leader index one machine on and either reconnects to
 the new leader or becomes the leader itself.
 */
module ServerFailover {
  import opened Base
  import Text
  import opened UserStore
  import opened WireCodec

  /**
   A replica's globals and loop variables: its machine number, LEADER,
   REPLICATION, SERVER_ADDRS, `backup_init` and its `users`.
   */
  datatype Backup = Backup(machine: int, leader: nat, replication: int, addrs: seq<string>, init: bool, store: Store)

  /**
   Why a replica's process stops: an IndexError on SERVER_ADDRS[LEADER], a
   refused `connect` in `connect_with_leader`, or a record it cannot decode.
   None of them is caught.
   */
  datatype Fault = AddressIndex | Unreachable | BadRecord(error: DecodeError)

  /** What the loop is doing after one received message. */
  datatype Status = Following(b: Backup) | Promoted(b: Backup) | Halted(fault: Fault)

  /**
   The states a replica can be in while it follows a leader: the leader
   index and the replication count still add up to the start-up count, the
   leader is a machine numbered below a positive machine number, the leader
   has an entry in the address list, and the store is a dict.
   */
  ghost predicate Inv(b: Backup) {
    && b.leader + b.replication == Replication
    && b.leader != b.machine
    && (b.machine > 0 ==> b.leader < b.machine)
    && b.leader < |b.addrs|
    && Valid(b.store)
  }

  /**
   A replica right after `connect_with_leader` at start-up (server.py:270-296):
   the leader is machine 0, SERVER_ADDRS holds only the leader's address
   from the command line, and the first message will be the address list.
   */
  function Start(machine: int, leaderIp: string): (b: Backup)
    requires machine != 0 && machine <= Replication
    ensures Inv(b) && b.init && b.leader == 0 && b.addrs == [leaderIp] && b.store == Empty()
  {
    Backup(machine, 0, Replication, [leaderIp], true, Empty())
  }

  /**
   The intended re-initialisation of SERVER_ADDRS on the address list of a
   new leader: the addresses up to and including the leader's stay where
   they are, so that LEADER keeps indexing SERVER_ADDRS absolutely, and the
   leader's backups follow.
   */
  function Rebase(addrs: seq<string>, leader: nat, msg: string): (r: seq<string>)
    requires leader < |addrs|
    ensures |r| > leader && r[leader] == addrs[leader]
    ensures r[..leader + 1] == addrs[..leader + 1]
  {
    addrs[..leader + 1] + DecodeAddrList(msg)
  }

  /**
   The re-initialisation as server.py:343-346 writes it: the leader's
   address alone, then the list. The leader's address moves to index 0
   while LEADER still counts from the first machine.
   */
  function RebaseAsWritten(addrs: seq<string>, leader: nat, msg: string): (r: seq<string>)
    requires leader < |addrs|
    ensures |r| >= 1 && r[0] == addrs[leader] && r[1..] == DecodeAddrList(msg)
  {
    [addrs[leader]] + DecodeAddrList(msg)
  }

  /**
   One turn of the backup loop (server.py:328-359) on the text one `recv`
   returned; the empty text is the leader's socket closing.
   - On a close, the log line reads SERVER_ADDRS[LEADER]; then LEADER goes
     up by one and REPLICATION down by one. The machine the new index names
     is promoted; any other machine connects to the new leader's address at
     `basePort` plus the new index, and expects an address list next.
     `up` is the set of endpoints a `connect` reaches.
   - The first message after a connect is the leader's address list.
   - Any later message is one account's replication record, which
     overwrites that account.
   */
  function Step(b: Backup, msg: string, basePort: int, up: set<Endpoint>): (r: Status)
    requires Valid(b.store)
    ensures r.Promoted? <==> msg == "" && b.leader < |b.addrs| && b.machine == b.leader + 1
    ensures r.Promoted? ==> r.b == b.(leader := b.leader + 1, replication := b.replication - 1)
    ensures r.Following? ==> r.b.machine == b.machine && Valid(r.b.store)
    ensures r.Following? ==> r.b.leader + r.b.replication == b.leader + b.replication
    ensures r.Following? && msg == "" ==>
      && r.b.leader == b.leader + 1 && r.b.init && r.b.store == b.store && r.b.addrs == b.addrs
      && r.b.leader < |b.addrs| && (b.addrs[r.b.leader], basePort + r.b.leader) in up
    ensures r.Following? && msg != "" ==> r.b.leader == b.leader && !r.b.init
    ensures r == Halted(Unreachable) ==>
      msg == "" && b.leader + 1 < |b.addrs| && (b.addrs[b.leader + 1], basePort + b.leader + 1) !in up
    ensures r.Halted? && msg != "" ==> if b.init then b.leader >= |b.addrs| else DecodeRecord(msg).Err?
    ensures r == Halted(AddressIndex) ==> b.leader + 1 >= |b.addrs|
  {
    if msg == "" then
      if b.leader >= |b.addrs| then Halted(AddressIndex)
      else
        var next := b.(leader := b.leader + 1, replication := b.replication - 1);
        if b.machine == next.leader then Promoted(next)
        else if next.leader >= |b.addrs| then Halted(AddressIndex)
        else if (b.addrs[next.leader], basePort + next.leader) !in up then Halted(Unreachable)
        else Following(next.(init := true))
    else if b.init then
      if b.leader >= |b.addrs| then Halted(AddressIndex)
      else Following(b.(addrs := Rebase(b.addrs, b.leader, msg), init := false))
    else
      match DecodeRecord(msg)
      case Err(e) => Halted(BadRecord(e))
      case Ok(rec) => Following(b.(store := Overwrite(b.store, rec.user, rec.password, rec.mailbox)))
  }

  /** The loop over a sequence of received texts, until the replica stops following. */
  function Steps(b: Backup, msgs: seq<string>, basePort: int, up: set<Endpoint>): (r: Status)
    requires Valid(b.store)
    ensures r.Following? ==> Valid(r.b.store) && r.b.machine == b.machine && r.b.leader >= b.leader
    decreases |msgs|
  {
    if |msgs| == 0 then Following(b)
    else match Step(b, msgs[0], basePort, up)
      case Following(b') => Steps(b', msgs[1..], basePort, up)
      case other => other
  }

  /**
   One turn of the backup loop exactly as server.py:343-346 writes the
   re-initialisation: on the address list, SERVER_ADDRS becomes the
   leader's address followed by the list (RebaseAsWritten). Every other
   branch is the one Step takes.
   */
  function StepAsWritten(b: Backup, msg: string, basePort: int, up: set<Endpoint>): (r: Status)
    requires Valid(b.store)
    ensures b.init && msg != "" && b.leader < |b.addrs| ==>
      r == Following(b.(addrs := RebaseAsWritten(b.addrs, b.leader, msg), init := false))
    ensures !(b.init && msg != "") ==> r == Step(b, msg, basePort, up)
  {
    if b.init && msg != "" && b.leader < |b.addrs| then
      Following(b.(addrs := RebaseAsWritten(b.addrs, b.leader, msg), init := false))
    else
      Step(b, msg, basePort, up)
  }

  /** The loop as written, over a sequence of received texts. */
  function StepsAsWritten(b: Backup, msgs: seq<string>, basePort: int, up: set<Endpoint>): (r: Status)
    requires Valid(b.store)
    ensures r.Following? ==> Valid(r.b.store)
    decreases |msgs|
  {
    if |msgs| == 0 then Following(b)
    else match StepAsWritten(b, msgs[0], basePort, up)
      case Following(b') => StepsAsWritten(b', msgs[1..], basePort, up)
      case other => other
  }

  /**
   `w` is the as-written replica in step with the intended replica `b`:
   the two differ only in SERVER_ADDRS, which as written is the intended
   table with the machines before the leader cut off once the leader's
   list has arrived.
   */
  ghost predicate InStep(b: Backup, w: Backup) {
    && w == b.(addrs := w.addrs)
    && b.leader <= |b.addrs|
    && w.addrs == if b.init then b.addrs else b.addrs[b.leader..]
  }

  /**
   How one turn of the loop as written compares with the intended turn,
   for machine 1 or 2 of the start-up cluster: whatever the intended turn
   does, the turn as written does the same apart from SERVER_ADDRS, except
   that machine 2, following machine 1 with no address after it in its
   table, halts on the log line's IndexError where the intended loop
   promotes it.
   */
  lemma StepAsWrittenInStep(b: Backup, w: Backup, msg: string, basePort: int, up: set<Endpoint>)
    requires Inv(b) && 0 < b.machine <= Replication && InStep(b, w)
    ensures var r := Step(b, msg, basePort, up);
      var v := StepAsWritten(w, msg, basePort, up);
      && (r.Following? ==> v.Following? && InStep(r.b, v.b))
      && (r.Halted? ==> v == r)
      && (r.Promoted? ==>
            || (v.Promoted? && v.b == r.b.(addrs := v.b.addrs))
            || (v == Halted(AddressIndex) && msg == "" && !b.init && b.leader == 1 && |b.addrs| == 2))
  {
    if msg == "" {
      LossInStep(b, w, basePort, up);
    } else if b.init {
      ListInStep(b, w, msg, basePort, up);
    } else {
      RecordInStep(b, w, msg, basePort, up);
    }
  }

  /** StepAsWrittenInStep's conclusion, for one turn on `msg`. */
  ghost predicate TurnInStep(b: Backup, w: Backup, msg: string, basePort: int, up: set<Endpoint>)
    requires Valid(b.store) && Valid(w.store)
  {
    var r := Step(b, msg, basePort, up);
    var v := StepAsWritten(w, msg, basePort, up);
    && (r.Following? ==> v.Following? && InStep(r.b, v.b))
    && (r.Halted? ==> v == r)
    && (r.Promoted? ==>
          || (v.Promoted? && v.b == r.b.(addrs := v.b.addrs))
          || (v == Halted(AddressIndex) && msg == "" && !b.init && b.leader == 1 && |b.addrs| == 2))
  }

  /** StepAsWrittenInStep on a close. */
  lemma LossInStep(b: Backup, w: Backup, basePort: int, up: set<Endpoint>)
    requires Inv(b) && 0 < b.machine <= Replication && InStep(b, w)
    ensures TurnInStep(b, w, "", basePort, up)
  {
  }

  /** StepAsWrittenInStep on the address list after a connect. */
  lemma ListInStep(b: Backup, w: Backup, msg: string, basePort: int, up: set<Endpoint>)
    requires Inv(b) && 0 < b.machine <= Replication && InStep(b, w)
    requires msg != "" && b.init
    ensures TurnInStep(b, w, msg, basePort, up)
  {
    var l := DecodeAddrList(msg);
    assert (b.addrs[..b.leader + 1] + l)[b.leader..] == [b.addrs[b.leader]] + l;
  }

  /** StepAsWrittenInStep on a replication record. */
  lemma RecordInStep(b: Backup, w: Backup, msg: string, basePort: int, up: set<Endpoint>)
    requires Inv(b) && 0 < b.machine <= Replication && InStep(b, w)
    requires msg != "" && !b.init
    ensures TurnInStep(b, w, msg, basePort, up)
  {
    var r := Step(b, msg, basePort, up);
    if r.Following? {
      assert r.b.addrs == b.addrs;
    }
  }

  /**
   The same over any run of the loop: the as-written replica stays in step
   with the intended one until the intended one stops following; it then
   halts in the same way, or is promoted in the same state apart from
   SERVER_ADDRS, or halts on the IndexError where the intended one is
   promoted.
   */
  lemma {:induction false} StepsAsWrittenInStep(b: Backup, w: Backup, msgs: seq<string>, basePort: int, up: set<Endpoint>)
    requires Inv(b) && 0 < b.machine <= Replication && InStep(b, w)
    ensures var r := Steps(b, msgs, basePort, up);
      var v := StepsAsWritten(w, msgs, basePort, up);
      && (r.Following? ==> v.Following? && InStep(r.b, v.b))
      && (r.Halted? ==> v == r)
      && (r.Promoted? ==> (v.Promoted? && v.b == r.b.(addrs := v.b.addrs)) || v == Halted(AddressIndex))
    decreases |msgs|
  {
    if |msgs| > 0 {
      var r := Step(b, msgs[0], basePort, up);
      var v := StepAsWritten(w, msgs[0], basePort, up);
      StepAsWrittenInStep(b, w, msgs[0], basePort, up);
      if r.Following? {
        StepPreservesInv(b, msgs[0], basePort, up);
        StepsAsWrittenInStep(r.b, v.b, msgs[1..], basePort, up);
        assert Steps(b, msgs, basePort, up) == Steps(r.b, msgs[1..], basePort, up);
        assert StepsAsWritten(w, msgs, basePort, up) == StepsAsWritten(v.b, msgs[1..], basePort, up);
      } else {
        assert Steps(b, msgs, basePort, up) == r;
        assert StepsAsWritten(w, msgs, basePort, up) == v;
      }
    }
  }

  /**
   A backup started as machine 1 or 2 runs the loop as written in step
   with the intended loop, from the same start, on any received texts.
   */
  lemma StartAsWrittenInStep(machine: int, leaderIp: string, msgs: seq<string>, basePort: int, up: set<Endpoint>)
    requires 0 < machine <= Replication
    ensures var r := Steps(Start(machine, leaderIp), msgs, basePort, up);
      var v := StepsAsWritten(Start(machine, leaderIp), msgs, basePort, up);
      && (r.Following? ==> v.Following? && InStep(r.b, v.b))
      && (r.Halted? ==> v == r)
      && (r.Promoted? ==> (v.Promoted? && v.b == r.b.(addrs := v.b.addrs)) || v == Halted(AddressIndex))
  {
    StepsAsWrittenInStep(Start(machine, leaderIp), Start(machine, leaderIp), msgs, basePort, up);
  }

  /**
   The divergence happens: machine 2 at A, B, C follows machine 1 at B
   after the first loss; machine 1 sends an address list with no entry
   ("B"). On the next loss the intended loop promotes machine 2, while the
   loop as written reads SERVER_ADDRS[1] of the one-entry table and halts.
   */
  lemma AsWrittenHaltsOnShortList()
    ensures var b := Backup(2, 1, 1, ["A", "B"], true, Empty());
      && Steps(b, ["B", ""], 0, {}).Promoted?
      && StepsAsWritten(b, ["B", ""], 0, {}) == Halted(AddressIndex)
  {
    var b := Backup(2, 1, 1, ["A", "B"], true, Empty());
    assert DecodeAddrList("B") == [];
    var r := Step(b, "B", 0, {});
    assert r == Following(b.(init := false));
    var v := StepAsWritten(b, "B", 0, {});
    assert v == Following(b.(addrs := ["B"], init := false));
  }

  /**
   Every turn keeps a following replica in a following state: the leader
   index never passes a positive machine number, never reaches the
   machine's own number while it follows, and only grows.
   */
  lemma StepPreservesInv(b: Backup, msg: string, basePort: int, up: set<Endpoint>)
    requires Inv(b)
    ensures var r := Step(b, msg, basePort, up);
      && (r.Following? ==> Inv(r.b) && r.b.leader >= b.leader)
      && (r.Promoted? ==> r.b.leader == r.b.machine && r.b.leader + r.b.replication == Replication && r.b.store == b.store)
  {
  }

  /** The same over any number of turns. */
  lemma {:induction false} StepsPreserveInv(b: Backup, msgs: seq<string>, basePort: int, up: set<Endpoint>)
    requires Inv(b)
    ensures var r := Steps(b, msgs, basePort, up);
      && (r.Following? ==> Inv(r.b) && r.b.leader >= b.leader)
      && (r.Promoted? ==> r.b.leader == r.b.machine && r.b.leader + r.b.replication == Replication)
    decreases |msgs|
  {
    if |msgs| > 0 {
      StepPreservesInv(b, msgs[0], basePort, up);
      var s := Step(b, msgs[0], basePort, up);
      if s.Following? {
        StepsPreserveInv(s.b, msgs[1..], basePort, up);
      }
    }
  }

  /**
   A following replica is never left following by as many losses of its
   leader as there are machines between the leader and itself: each loss
   moves the leader index one machine on, a record or list message leaves
   it in place, and a following machine's leader index stays below its own
   number. It has been promoted or has halted by then.
   */
  lemma {:induction false} LossesEndFollowing(b: Backup, msgs: seq<string>, basePort: int, up: set<Endpoint>)
    requires Inv(b) && b.machine > 0 && multiset(msgs)[""] >= b.machine - b.leader
    ensures !Steps(b, msgs, basePort, up).Following?
    decreases |msgs|
  {
    assert msgs == [msgs[0]] + msgs[1..];
    assert multiset(msgs)[""] == multiset([msgs[0]])[""] + multiset(msgs[1..])[""];
    StepPreservesInv(b, msgs[0], basePort, up);
    var s := Step(b, msgs[0], basePort, up);
    if s.Following? {
      LossesEndFollowing(s.b, msgs[1..], basePort, up);
    }
  }

  /**
   A backup started as machine 1 or 2 that loses its leader as many times
   as its machine number is no longer following: with the start-up
   replication count of 2, machine 1 is promoted on the first loss and
   machine 2 at the latest on the second, unless it halted first.
   */
  lemma StartedBackupPromotedOrHalted(machine: int, leaderIp: string, msgs: seq<string>, basePort: int, up: set<Endpoint>)
    requires 0 < machine <= Replication && multiset(msgs)[""] >= machine
    ensures !Steps(Start(machine, leaderIp), msgs, basePort, up).Following?
  {
    LossesEndFollowing(Start(machine, leaderIp), msgs, basePort, up);
  }

  /**
   A record message overwrites exactly the account it names with the
   leader's password and mailbox, keeping the socket and listing position
   of an account the replica already had; every other account is untouched.
   */
  lemma RecordStepOverwrites(b: Backup, rec: Record, basePort: int, up: set<Endpoint>)
    requires Valid(b.store) && !b.init && DotFree(rec)
    ensures var r := Step(b, EncodeRecord(rec), basePort, up);
      && r.Following?
      && r.b == b.(store := r.b.store)
      && SameExcept(b.store, r.b.store, rec.user)
      && rec.user in r.b.store.accounts
      && r.b.store.accounts[rec.user].password == rec.password
      && r.b.store.accounts[rec.user].mailbox == rec.mailbox
      && (rec.user in b.store.accounts ==> r.b.store.accounts[rec.user].socket == b.store.accounts[rec.user].socket)
  {
    RecordRoundTrip(rec);
    RecordNonEmpty(rec);
  }

  /** Every replication record is non-empty: it ends in a dot. */
  lemma RecordNonEmpty(rec: Record)
    ensures EncodeRecord(rec) != ""
  {
    var items := [rec.user, rec.password, Text.ShowNat(|rec.mailbox|)] + rec.mailbox;
    assert EncodeRecord(rec) == items[0] + ['.'] + Text.Terminated(items[1..], '.');
  }

  /**
   `t` is `b` after the records of the named accounts of `l`: each named
   account has the leader's password and mailbox, a new one has no socket,
   an account not named is as it was, and nothing but the store changed.
   */
  ghost predicate Replayed(b: Backup, l: Store, names: seq<string>, t: Backup)
    requires forall i :: 0 <= i < |names| ==> names[i] in l.accounts
  {
    && t == b.(store := t.store)
    && (forall n :: n in t.store.accounts <==> n in b.store.accounts || n in names)
    && (forall n :: n in names ==>
          t.store.accounts[n].password == l.accounts[n].password && t.store.accounts[n].mailbox == l.accounts[n].mailbox)
    && (forall n :: n in b.store.accounts ==> t.store.accounts[n].socket == b.store.accounts[n].socket)
    && (forall n :: n in names && n !in b.store.accounts ==> t.store.accounts[n].socket == None)
    && (forall n :: n in b.store.accounts && n !in names ==> t.store.accounts[n] == b.store.accounts[n])
  }

  /** One record followed by the rest: the two replays compose. */
  lemma ReplayedCons(b: Backup, b1: Backup, t: Backup, l: Store, names: seq<string>)
    requires |names| > 0 && forall i :: 0 <= i < |names| ==> names[i] in l.accounts
    requires Replayed(b, l, names[..1], b1) && Replayed(b1, l, names[1..], t)
    ensures Replayed(b, l, names, t)
  {
    assert forall n :: n in names <==> n == names[0] || n in names[1..];
    assert forall n :: n in names[..1] <==> n == names[0];
  }

  /**
   A replica applying the records of a sequence of accounts of a leader's
   store: each named account ends up with the leader's password and
   mailbox, a new one without a socket, while every account not named is
   left exactly as it was. Nothing but the store changes.
   */
  lemma {:induction false} ReplayOverwrites(b: Backup, l: Store, names: seq<string>, basePort: int, up: set<Endpoint>)
    requires Valid(b.store) && !b.init && StoreDotFree(l)
    requires forall i :: 0 <= i < |names| ==> names[i] in l.accounts
    ensures var r := Steps(b, Records(l, names), basePort, up);
      r.Following? && Replayed(b, l, names, r.b)
    decreases |names|
  {
    if |names| > 0 {
      var msgs := Records(l, names);
      RecordsSplit(l, names);
      FirstRecordReplayed(b, l, names, basePort, up);
      var b1 := Step(b, msgs[0], basePort, up).b;
      StepsFollow(b, msgs, basePort, up);
      ReplayOverwrites(b1, l, names[1..], basePort, up);
      ReplayedCons(b, b1, Steps(b1, msgs[1..], basePort, up).b, l, names);
    }
  }

  /** The records of a list of accounts are the first account's record, then the rest's. */
  lemma RecordsSplit(l: Store, names: seq<string>)
    requires |names| > 0 && forall i :: 0 <= i < |names| ==> names[i] in l.accounts
    ensures var msgs := Records(l, names);
      && |msgs| == |names|
      && msgs[0] == EncodeRecord(Snapshot(l, names[0]))
      && msgs[1..] == Records(l, names[1..])
  {
  }

  /** A run of messages whose first step keeps the replica following goes on from that step. */
  lemma StepsFollow(b: Backup, msgs: seq<string>, basePort: int, up: set<Endpoint>)
    requires Valid(b.store) && |msgs| > 0 && Step(b, msgs[0], basePort, up).Following?
    ensures Steps(b, msgs, basePort, up) == Steps(Step(b, msgs[0], basePort, up).b, msgs[1..], basePort, up)
  {
  }

  /** The first record of a replay leaves the replica following, with that one account replayed. */
  lemma FirstRecordReplayed(b: Backup, l: Store, names: seq<string>, basePort: int, up: set<Endpoint>)
    requires Valid(b.store) && !b.init && StoreDotFree(l)
    requires |names| > 0 && forall i :: 0 <= i < |names| ==> names[i] in l.accounts
    ensures var r := Step(b, EncodeRecord(Snapshot(l, names[0])), basePort, up);
      r.Following? && Valid(r.b.store) && !r.b.init && Replayed(b, l, names[..1], r.b)
  {
    RecordStepOverwrites(b, Snapshot(l, names[0]), basePort, up);
    assert forall n :: n in names[..1] <==> n == names[0];
  }

  /**
   After the records of one `update` of a leader whose fields hold no dot,
   a following replica has every account of the leader with the leader's
   password and mailbox. Accounts the leader no longer has, such as a
   deleted one, stay on the replica unchanged: `update` only overwrites.
   */
  lemma UpdateConverges(b: Backup, l: Store, basePort: int, up: set<Endpoint>)
    requires Valid(b.store) && !b.init && Valid(l) && StoreDotFree(l)
    ensures var r := Steps(b, UpdateMessages(l), basePort, up);
      && r.Following?
      && r.b == b.(store := r.b.store)
      && (forall n :: n in r.b.store.accounts <==> n in b.store.accounts || n in l.accounts)
      && (forall n :: n in l.accounts ==>
            r.b.store.accounts[n].password == l.accounts[n].password && r.b.store.accounts[n].mailbox == l.accounts[n].mailbox)
      && (forall n :: n in b.store.accounts && n !in l.accounts ==> r.b.store.accounts[n] == b.store.accounts[n])
  {
    ReplayOverwrites(b, l, l.names, basePort, up);
    assert forall n :: n in l.names <==> n in l.accounts;
  }

  /**
   On the addresses of a cluster whose machine i is at `cluster[i]`, with
   the new leader sending the addresses of the machines after it, the
   intended re-initialisation gives back the whole table: index i still
   names machine i.
   */
  lemma RebaseRestoresCluster(addrs: seq<string>, cluster: seq<string>, leader: nat)
    requires leader < |addrs| && leader < |cluster| && addrs[..leader + 1] == cluster[..leader + 1]
    requires forall i :: 0 <= i < |cluster| ==> ',' !in cluster[i]
    ensures Rebase(addrs, leader, EncodeAddrList(cluster[leader + 1..])) == cluster
  {
    AddrListRoundTrip(cluster[leader + 1..]);
    assert cluster[..leader + 1] + cluster[leader + 1..] == cluster;
  }

  /**
   The same exchange as server.py writes it: the table comes out shifted by
   the leader index, so index i names machine `leader + i`.
   */
  lemma RebaseAsWrittenShifts(addrs: seq<string>, cluster: seq<string>, leader: nat)
    requires leader < |addrs| && leader < |cluster| && addrs[leader] == cluster[leader]
    requires forall i :: 0 <= i < |cluster| ==> ',' !in cluster[i]
    ensures RebaseAsWritten(addrs, leader, EncodeAddrList(cluster[leader + 1..])) == cluster[leader..]
  {
    AddrListRoundTrip(cluster[leader + 1..]);
    assert [cluster[leader]] + cluster[leader + 1..] == cluster[leader..];
  }

  /**
   Three machines at A, B and C: after machine 1 takes over, machine 2
   re-initialises from the list "C," and LEADER = 1 then names its own
   address, which is what the next loss of the leader logs.
   */
  lemma RebaseAsWrittenMisplacesLeader()
    ensures var r := RebaseAsWritten(["A", "B", "C"], 1, "C,");
      |r| == 2 && r[1] == "C" && r[1] != ["A", "B", "C"][1]
  {
    RebaseAsWrittenShifts(["A", "B", "C"], ["A", "B", "C"], 1);
    assert EncodeAddrList(["A", "B", "C"][2..]) == "C,";
  }
}
