/**
 The server's account registry: the `users` dict of server.py, mapping a
 username to its password, the socket it is bound to and its mailbox of
 undelivered messages. Python dicts keep insertion order, which is the
 order `enumerate(users)` lists accounts in, so the store keeps that order
 next to the map.
 */
module UserStore {
  import opened Base

  /** A client connection, by identity. */
  type Sock = nat

  /**
   One entry of `users`. `socket` is None when the entry has no 'socket'
   key at all, which is how a backup creates an account when it applies a
   replication record for a username it has not seen.
   */
  datatype Account = Account(password: string, socket: Option<Sock>, mailbox: seq<string>)

  /** The accounts by username, and the usernames in insertion order. */
  datatype Store = Store(names: seq<string>, accounts: map<string, Account>)

  /** No username occurs twice: the first is not among the rest, and the rest are distinct too. */
  predicate Distinct(xs: seq<string>)
    decreases |xs|
  {
    |xs| == 0 || (xs[0] !in xs[1..] && Distinct(xs[1..]))
  }

  /** Distinctness is the same as every two positions holding different names. */
  lemma {:induction false} DistinctPairwise(xs: seq<string>)
    ensures Distinct(xs) <==> forall i, j :: 0 <= i < j < |xs| ==> xs[i] != xs[j]
    decreases |xs|
  {
    if |xs| > 0 {
      var t := xs[1..];
      DistinctPairwise(t);
      if Distinct(xs) {
        forall i, j | 0 <= i < j < |xs|
          ensures xs[i] != xs[j]
        {
          assert xs[j] == t[j - 1];
          if i > 0 {
            assert xs[i] == t[i - 1];
          }
        }
      }
      if forall i, j :: 0 <= i < j < |xs| ==> xs[i] != xs[j] {
        forall i, j | 0 <= i < j < |t|
          ensures t[i] != t[j]
        {
          assert t[i] == xs[i + 1] && t[j] == xs[j + 1];
        }
      }
    }
  }

  /** Usernames are unique and the insertion order lists exactly the registered accounts. */
  ghost predicate Valid(s: Store) {
    Distinct(s.names) && s.accounts.Keys == (set n | n in s.names)
  }

  /** The `defaultdict(dict)` every server starts with. */
  function Empty(): (s: Store)
    ensures Valid(s) && |s.names| == 0 && |s.accounts| == 0
  {
    Store([], map[])
  }

  /** Every account other than `name` is in both stores with the same contents, or in neither. */
  ghost predicate SameExcept(s: Store, t: Store, name: string) {
    forall n :: n != name ==>
      (n in s.accounts <==> n in t.accounts) && (n in s.accounts ==> s.accounts[n] == t.accounts[n])
  }

  datatype StoreError = UsernameTaken | UnknownUser | WrongPassword

  /** Appending a fresh name keeps the names distinct. */
  lemma AppendDistinct(xs: seq<string>, x: string)
    requires Distinct(xs) && x !in xs
    ensures Distinct(xs + [x])
  {
    var ys := xs + [x];
    DistinctPairwise(xs);
    DistinctPairwise(ys);
    forall i, j | 0 <= i < j < |ys|
      ensures ys[i] != ys[j]
    {
      if j == |xs| {
        assert ys[i] == xs[i];
      }
    }
  }

  /**
   Account creation (server.py:45-57 and the taken branch at 64-66): a new
   username gets the given password, an empty mailbox and the creating
   session's socket, at the end of the listing order; a taken username is
   refused and nothing changes.
   */
  function CreateAccount(s: Store, name: string, password: string, sock: Sock): (r: Result<Store, StoreError>)
    requires Valid(s)
    ensures r.Ok? <==> name !in s.accounts
    ensures r.Err? ==> r.error == UsernameTaken
    ensures r.Ok? ==>
      && Valid(r.value)
      && r.value.names == s.names + [name]
      && SameExcept(s, r.value, name)
      && name in r.value.accounts
      && r.value.accounts[name] == Account(password, Some(sock), [])
  {
    if name in s.accounts then Err(UsernameTaken)
    else
      AppendDistinct(s.names, name);
      Ok(Store(s.names + [name], s.accounts[name := Account(password, Some(sock), [])]))
  }

  /**
   A login check followed by the binding and mailbox drain of a successful
   login (server.py:80-105): an unknown username or a wrong password is
   refused with nothing changed; otherwise the account is bound to `sock`,
   its queued messages are handed back in the order they were queued, and
   its mailbox is left empty.
   */
  function Authenticate(s: Store, name: string, password: string, sock: Sock): (r: Result<(Store, seq<string>), StoreError>)
    requires Valid(s)
    ensures r.Err? <==> name !in s.accounts || s.accounts[name].password != password
    ensures r.Err? ==> r.error == (if name !in s.accounts then UnknownUser else WrongPassword)
    ensures r.Ok? ==>
      && Valid(r.value.0)
      && r.value.0.names == s.names
      && SameExcept(s, r.value.0, name)
      && name in r.value.0.accounts
      && r.value.1 == s.accounts[name].mailbox
      && r.value.0.accounts[name] == Account(s.accounts[name].password, Some(sock), [])
  {
    if name !in s.accounts then Err(UnknownUser)
    else if s.accounts[name].password != password then Err(WrongPassword)
    else
      var a := s.accounts[name];
      Ok((s.(accounts := s.accounts[name := a.(socket := Some(sock), mailbox := [])]), a.mailbox))
  }

  /**
   Queueing a message for an offline recipient (server.py:209): it goes on
   the end of that recipient's mailbox and nowhere else.
   */
  function Enqueue(s: Store, name: string, message: string): (t: Store)
    requires Valid(s) && name in s.accounts
    ensures Valid(t) && t.names == s.names && SameExcept(s, t, name) && name in t.accounts
    ensures t.accounts[name].password == s.accounts[name].password
    ensures t.accounts[name].socket == s.accounts[name].socket
    ensures t.accounts[name].mailbox == s.accounts[name].mailbox + [message]
  {
    var a := s.accounts[name];
    s.(accounts := s.accounts[name := a.(mailbox := a.mailbox + [message])])
  }

  /** The position of `x` in `xs`: its first occurrence. */
  function IndexOf(xs: seq<string>, x: string): (i: nat)
    requires x in xs
    ensures i < |xs| && xs[i] == x && x !in xs[..i]
    decreases |xs|
  {
    if xs[0] == x then 0
    else
      var j := IndexOf(xs[1..], x);
      assert xs[1..][..j] == xs[1..j + 1];
      1 + j
  }

  /** Removing one position of a distinct sequence removes exactly that element. */
  lemma RemoveAtDistinct(xs: seq<string>, i: nat)
    requires Distinct(xs) && i < |xs|
    ensures Distinct(xs[..i] + xs[i + 1..])
    ensures forall y :: y in xs[..i] + xs[i + 1..] <==> y in xs && y != xs[i]
  {
    RemoveAtKeepsDistinct(xs, i);
    RemoveAtMembers(xs, i);
  }

  /** Position `k` after removing position `i` holds what position `Skip(k, i)` held before. */
  lemma RemoveAtShifts(xs: seq<string>, i: nat)
    requires i < |xs|
    ensures var ys := xs[..i] + xs[i + 1..];
      |ys| + 1 == |xs| && forall k :: 0 <= k < |ys| ==> ys[k] == xs[Skip(k, i)]
  {
  }

  lemma RemoveAtKeepsDistinct(xs: seq<string>, i: nat)
    requires Distinct(xs) && i < |xs|
    ensures Distinct(xs[..i] + xs[i + 1..])
  {
    var ys := xs[..i] + xs[i + 1..];
    DistinctPairwise(xs);
    RemoveAtShifts(xs, i);
    forall a, b | 0 <= a < b < |ys|
      ensures ys[a] != ys[b]
    {
      assert ys[a] == xs[Skip(a, i)] && ys[b] == xs[Skip(b, i)];
    }
    DistinctPairwise(ys);
  }

  lemma RemoveAtMembers(xs: seq<string>, i: nat)
    requires Distinct(xs) && i < |xs|
    ensures forall y :: y in xs[..i] + xs[i + 1..] <==> y in xs && y != xs[i]
  {
    var ys := xs[..i] + xs[i + 1..];
    DistinctPairwise(xs);
    RemoveAtShifts(xs, i);
    forall y | y in ys
      ensures y in xs && y != xs[i]
    {
      var k :| 0 <= k < |ys| && ys[k] == y;
      assert xs[Skip(k, i)] == y;
    }
    forall y | y in xs && y != xs[i]
      ensures y in ys
    {
      var k :| 0 <= k < |xs| && xs[k] == y;
      if k < i {
        assert ys[k] == y;
      } else {
        assert ys[k - 1] == y;
      }
    }
  }

  /** The position in the original sequence of position `k` once position `i` is removed. */
  function Skip(k: nat, i: nat): (j: nat)
    ensures j != i && (j < i <==> k < i)
  {
    if k < i then k else k + 1
  }

  /**
   Account deletion (`del users[name]`, server.py:227): the account is gone,
   every other account is untouched, and the listing order of the rest is
   kept.
   */
  function Delete(s: Store, name: string): (t: Store)
    requires Valid(s) && name in s.accounts
    ensures Valid(t) && name !in t.accounts && SameExcept(s, t, name)
    ensures |t.names| + 1 == |s.names|
    ensures exists i :: 0 <= i < |s.names| && s.names[i] == name && t.names == s.names[..i] + s.names[i + 1..]
  {
    var i := IndexOf(s.names, name);
    RemoveAtValid(s, i);
    Store(s.names[..i] + s.names[i + 1..], s.accounts - {name})
  }

  /** Dropping the name at one position, and its account, leaves a well-formed registry. */
  lemma RemoveAtValid(s: Store, i: nat)
    requires Valid(s) && i < |s.names|
    ensures Valid(Store(s.names[..i] + s.names[i + 1..], s.accounts - {s.names[i]}))
  {
    var t := Store(s.names[..i] + s.names[i + 1..], s.accounts - {s.names[i]});
    RemoveAtDistinct(s.names, i);
    forall n
      ensures n in t.accounts.Keys <==> n in t.names
    {
      assert n in s.accounts.Keys <==> n in (set m | m in s.names);
    }
    assert t.accounts.Keys == (set n | n in t.names);
  }

  /**
   A backup applying a replication record (server.py:353-359): the
   account's password and mailbox are replaced by the record's, whatever
   they were; an existing account keeps its socket and its place in the
   order, a new one is added at the end without a socket. No other account
   changes.
   */
  function Overwrite(s: Store, name: string, password: string, mailbox: seq<string>): (t: Store)
    requires Valid(s)
    ensures Valid(t) && SameExcept(s, t, name) && name in t.accounts
    ensures t.accounts[name].password == password && t.accounts[name].mailbox == mailbox
    ensures name in s.accounts ==> t.names == s.names && t.accounts[name].socket == s.accounts[name].socket
    ensures name !in s.accounts ==> t.names == s.names + [name] && t.accounts[name].socket == None
  {
    if name in s.accounts then
      s.(accounts := s.accounts[name := Account(password, s.accounts[name].socket, mailbox)])
    else
      AppendDistinct(s.names, name);
      Store(s.names + [name], s.accounts[name := Account(password, None, mailbox)])
  }
}
