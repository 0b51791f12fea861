/**
 The client's side of failover (client.py): the list of server addresses
 it learns from the leader's greeting, the index of the server it thinks
 leads, and the forward scan for the next server when its connection
 closes.
 */
module ClientFailover {
  import opened Base
  import opened WireCodec

  /**
   The client's `server_addrs`, `leader` and `init`: the addresses by
   server index, the index of the server it is connected to, and whether
   the next server message is a greeting.
   */
  datatype View = View(addrs: seq<string>, leader: nat, init: bool)

  /** The view right after the first `connect`, to the address from the command line. */
  function Start(ip: string): (v: View)
    ensures v.addrs == [ip] && v.leader == 0 && v.init
  {
    View([ip], 0, true)
  }

  /**
   What a non-empty server message does: a greeting extends the address
   list and shows its banner; a later message is shown as it is. A greeting
   without `@` raises an IndexError, which ends the client.
   */
  datatype Reaction = Display(view: View, text: string) | GreetingCrash

  /**
   A non-empty message from the server (client.py:85-98). While `init`
   holds it is a greeting: the addresses before `@` are appended to the
   list in order and the banner after it is shown. Otherwise the message is
   shown verbatim and the view does not change.
   */
  function OnServerText(v: View, msg: string): (r: Reaction)
    ensures r.GreetingCrash? <==> v.init && '@' !in msg
    ensures r.Display? ==> !r.view.init && r.view.leader == v.leader
    ensures r.Display? ==> |r.view.addrs| >= |v.addrs| && r.view.addrs[..|v.addrs|] == v.addrs
    ensures !v.init ==> r == Display(v, msg)
    ensures v.init && r.Display? ==> '@' !in r.text && forall i :: |v.addrs| <= i < |r.view.addrs| ==> ',' !in r.view.addrs[i]
  {
    if !v.init then Display(v, msg)
    else match ParseGreeting(msg)
      case Err(_) => GreetingCrash
      case Ok((backups, banner)) =>
        assert (v.addrs + backups)[..|v.addrs|] == v.addrs;
        Display(View(v.addrs + backups, v.leader, false), banner)
  }

  /**
   A greeting from a server that lists backup addresses holding neither
   `,` nor `@` appends exactly those addresses, in order, after the ones the
   client already had, and the banner is empty: server.py sends none.
   */
  lemma GreetingExtendsView(v: View, backups: seq<string>)
    requires v.init
    requires forall i :: 0 <= i < |backups| ==> ',' !in backups[i] && '@' !in backups[i]
    ensures OnServerText(v, ServerGreeting(backups)) == Display(View(v.addrs + backups, v.leader, false), "")
  {
    ServerGreetingParses(backups);
  }

  /** The first greeting leaves the command-line address at index 0 and the backups after it. */
  lemma FirstGreetingKeepsLeader(ip: string, backups: seq<string>)
    requires forall i :: 0 <= i < |backups| ==> ',' !in backups[i] && '@' !in backups[i]
    ensures var r := OnServerText(Start(ip), ServerGreeting(backups));
      && r.Display? && r.view.addrs[0] == ip && r.view.addrs[1..] == backups && r.view.leader == 0
  {
    GreetingExtendsView(Start(ip), backups);
  }

  /** Server `i` can be connected to: its index is in the list and its endpoint answers. */
  predicate Reachable(addrs: seq<string>, basePort: int, up: set<Endpoint>, i: nat) {
    i < |addrs| && (addrs[i], basePort + i) in up
  }

  /** One try of the scan: an index past the list (an IndexError), or a `connect` to an endpoint. */
  datatype Attempt = OutOfRange(index: nat) | Dial(to: Endpoint)

  /** The try the scan makes for index `i`: `server_addrs[i]` at `PORT + i`. */
  function AttemptAt(addrs: seq<string>, basePort: int, i: nat): (a: Attempt)
    ensures a.OutOfRange? <==> i >= |addrs|
    ensures a.Dial? ==> a.to == (addrs[i], basePort + i)
  {
    if i < |addrs| then Dial((addrs[i], basePort + i)) else OutOfRange(i)
  }

  /**
   The reference answer for the scan: the least reachable index from `i`
   up to `Replication + 1`, if there is one.
   */
  function FirstReachable(addrs: seq<string>, basePort: int, up: set<Endpoint>, i: nat): (r: Option<nat>)
    ensures r.Some? ==> i <= r.value <= Replication + 1 && Reachable(addrs, basePort, up, r.value)
    ensures r.Some? ==> forall j :: i <= j < r.value ==> !Reachable(addrs, basePort, up, j)
    ensures r.None? ==> forall j :: i <= j <= Replication + 1 ==> !Reachable(addrs, basePort, up, j)
    decreases Replication + 2 - i
  {
    if i > Replication + 1 then None
    else if Reachable(addrs, basePort, up, i) then Some(i)
    else FirstReachable(addrs, basePort, up, i + 1)
  }

  /**
   The reconnect loop (client.py:63-84) after the server socket closes.
   While no attempt has succeeded and `leader <= Replication`, the index
   goes up by one and the client tries `addrs[leader]` at
   `basePort + leader`; an index past the list or a refused connection is a
   failed try. `ok` is false when the client closes and exits.
   */
  method Reconnect(v: View, basePort: int, up: set<Endpoint>) returns (w: View, ok: bool, tried: seq<Attempt>)
    ensures w.addrs == v.addrs
    ensures ok <==> v.leader <= Replication && FirstReachable(v.addrs, basePort, up, v.leader + 1).Some?
    ensures ok ==> w.leader == FirstReachable(v.addrs, basePort, up, v.leader + 1).value
    ensures ok ==> w.init && Reachable(v.addrs, basePort, up, w.leader)
    ensures !ok ==> w.init == v.init && w.leader == if v.leader <= Replication then Replication + 1 else v.leader
    ensures |tried| == w.leader - v.leader
    ensures forall k :: 0 <= k < |tried| ==> tried[k] == AttemptAt(v.addrs, basePort, v.leader + 1 + k)
  {
    w := v;
    ok := false;
    tried := [];
    while !ok && w.leader <= Replication
      invariant w.addrs == v.addrs && w.leader >= v.leader
      invariant v.leader <= Replication ==> w.leader <= Replication + 1
      invariant v.leader > Replication ==> w.leader == v.leader
      invariant |tried| == w.leader - v.leader
      invariant forall k :: 0 <= k < |tried| ==> tried[k] == AttemptAt(v.addrs, basePort, v.leader + 1 + k)
      invariant forall j :: v.leader < j < w.leader ==> !Reachable(v.addrs, basePort, up, j)
      invariant ok ==> w.leader > v.leader && w.init && Reachable(v.addrs, basePort, up, w.leader)
      invariant !ok ==> w.init == v.init && forall j :: v.leader < j <= w.leader ==> !Reachable(v.addrs, basePort, up, j)
      decreases Replication + 1 - w.leader, if ok then 0 else 1
    {
      w := w.(leader := w.leader + 1);
      tried := tried + [AttemptAt(v.addrs, basePort, w.leader)];
      if Reachable(v.addrs, basePort, up, w.leader) {
        w := w.(init := true);
        ok := true;
      }
    }
    if ok {
      FirstReachableIsLeast(v.addrs, basePort, up, v.leader + 1, w.leader);
    } else if v.leader <= Replication {
      FirstReachableNone(v.addrs, basePort, up, v.leader + 1);
    }
  }

  /** A reachable index with none reachable before it is the reference answer. */
  lemma {:induction false} FirstReachableIsLeast(addrs: seq<string>, basePort: int, up: set<Endpoint>, i: nat, k: nat)
    requires i <= k <= Replication + 1 && Reachable(addrs, basePort, up, k)
    requires forall j :: i <= j < k ==> !Reachable(addrs, basePort, up, j)
    ensures FirstReachable(addrs, basePort, up, i) == Some(k)
    decreases k - i
  {
    if i < k {
      FirstReachableIsLeast(addrs, basePort, up, i + 1, k);
    }
  }

  /** With nothing reachable up to `Replication + 1`, the reference answer is None. */
  lemma {:induction false} FirstReachableNone(addrs: seq<string>, basePort: int, up: set<Endpoint>, i: nat)
    requires forall j :: i <= j <= Replication + 1 ==> !Reachable(addrs, basePort, up, j)
    ensures FirstReachable(addrs, basePort, up, i) == None
    decreases Replication + 2 - i
  {
    if i <= Replication + 1 {
      FirstReachableNone(addrs, basePort, up, i + 1);
    }
  }
}
