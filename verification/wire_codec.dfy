/**
 The text formats exchanged between replicas and clients:
 - the replication record a leader sends a backup for one account,
   `user.password.count.mail1.mail2.`;
 - the comma-terminated address list a leader sends each backup once;
 - the greeting a leader sends each client first: the same list, then `@`.
 */
module WireCodec {
  import opened Base
  import opened Text
  import opened UserStore

  /** The content of one replication message: one account's full state. */
  datatype Record = Record(user: string, password: string, mailbox: seq<string>)

  /**
   The record `update` writes for one account: username, password and
   mailbox length, each followed by a dot, then each queued message
   followed by a dot.
   */
  function EncodeRecord(r: Record): (s: string)
    ensures DotFree(r) ==> Split(s, '.') == Fields(r) + [""]
  {
    FieldsSplit(r);
    Terminated(Fields(r), '.')
  }

  /** The dots of a dot-free record's text separate exactly its fields. */
  lemma FieldsSplit(r: Record)
    ensures DotFree(r) ==> Split(Terminated(Fields(r), '.'), '.') == Fields(r) + [""]
  {
    if DotFree(r) {
      FieldsDotFree(r);
      SplitTerminated(Fields(r), '.');
    }
  }

  /** The fields of a record in the order they are written. */
  function Fields(r: Record): seq<string> {
    [r.user, r.password, ShowNat(|r.mailbox|)] + r.mailbox
  }

  /** The record's fields contain no dot, the one character the format cannot carry. */
  ghost predicate DotFree(r: Record) {
    '.' !in r.user && '.' !in r.password && forall i :: 0 <= i < |r.mailbox| ==> '.' !in r.mailbox[i]
  }

  /** Why a backup's decoding raises: an IndexError for a missing field, a ValueError for the count. */
  datatype DecodeError = MissingField | BadCount

  /**
   The backup's reading of a replication message: split on dots; the first
   two fields are username and password; the third, read by `int()`, is
   how many of the following fields make up the mailbox. A count of zero
   or below gives an empty mailbox (`range` of it is empty); fields beyond
   the count are ignored.
   */
  function DecodeRecord(msg: string): (r: Result<Record, DecodeError>)
    ensures |Split(msg, '.')| < 3 ==> r == Err(MissingField)
    ensures r.Ok? ==> DotFree(r.value) && r.value.user == Split(msg, '.')[0]
  {
    DecodeFields(Split(msg, '.'))
  }

  /** The backup's reading of the fields of a message, once split on dots. */
  function DecodeFields(fields: seq<string>): (r: Result<Record, DecodeError>)
    ensures |fields| < 3 ==> r == Err(MissingField)
    ensures r.Ok? ==> r.value.user == fields[0]
    ensures r.Ok? && (forall i :: 0 <= i < |fields| ==> '.' !in fields[i]) ==> DotFree(r.value)
  {
    if |fields| < 3 then Err(MissingField)
    else match ParseInt(fields[2])
      case None => Err(BadCount)
      case Some(count) =>
        if count <= 0 then Ok(Record(fields[0], fields[1], []))
        else if 3 + count > |fields| then Err(MissingField)
        else Ok(Record(fields[0], fields[1], fields[3..3 + count]))
  }

  lemma DigitsAreDotFree(s: string)
    requires AllDigits(s)
    ensures '.' !in s
  {
  }

  /** A backup decodes exactly the record the leader encoded, as long as no field holds a dot. */
  lemma RecordRoundTrip(r: Record)
    requires DotFree(r)
    ensures DecodeRecord(EncodeRecord(r)) == Ok(r)
  {
    FieldsDotFree(r);
    SplitTerminated(Fields(r), '.');
    FieldsRoundTrip(r);
  }

  /** No field of a dot-free record holds a dot; the count is digits only. */
  lemma FieldsDotFree(r: Record)
    requires DotFree(r)
    ensures forall i :: 0 <= i < |Fields(r)| ==> '.' !in Fields(r)[i]
  {
    var items := Fields(r);
    DigitsAreDotFree(ShowNat(|r.mailbox|));
    forall i | 0 <= i < |items|
      ensures '.' !in items[i]
    {
      if i >= 3 {
        assert items[i] == r.mailbox[i - 3];
      }
    }
  }

  /** The written fields, with the empty field after the last dot, read back as the record. */
  lemma FieldsRoundTrip(r: Record)
    ensures DecodeFields(Fields(r) + [""]) == Ok(r)
  {
    var n := |r.mailbox|;
    var fields := Fields(r) + [""];
    assert fields[0] == r.user && fields[1] == r.password && fields[2] == ShowNat(n);
    ParseShowNat(n);
    if n > 0 {
      assert fields[3..3 + n] == r.mailbox;
    }
  }

  /** The record `update` builds for one account of the leader. */
  function Snapshot(s: Store, name: string): (r: Record)
    requires name in s.accounts
  {
    Record(name, s.accounts[name].password, s.accounts[name].mailbox)
  }

  /** The encoded records of the named accounts, in the given order. */
  function Records(s: Store, names: seq<string>): (msgs: seq<string>)
    requires forall i :: 0 <= i < |names| ==> names[i] in s.accounts
  {
    seq(|names|, i requires 0 <= i < |names| => EncodeRecord(Snapshot(s, names[i])))
  }

  /**
   What one `update` call sends to each backup: a record for every
   account, in listing order.
   */
  function UpdateMessages(s: Store): (msgs: seq<string>)
    requires Valid(s)
    ensures |msgs| == |s.names|
    ensures forall i :: 0 <= i < |msgs| ==> msgs[i] == EncodeRecord(Snapshot(s, s.names[i]))
  {
    Records(s, s.names)
  }

  /** Every account's fields are dot-free. */
  ghost predicate StoreDotFree(s: Store) {
    forall n :: n in s.accounts ==> DotFree(Snapshot(s, n))
  }

  /** Each message of an `update` decodes to the sending account's current state. */
  lemma UpdateRoundTrip(s: Store)
    requires Valid(s) && StoreDotFree(s)
    ensures |UpdateMessages(s)| == |s.names|
    ensures forall i :: 0 <= i < |s.names| ==> DecodeRecord(UpdateMessages(s)[i]) == Ok(Snapshot(s, s.names[i]))
  {
    forall i | 0 <= i < |s.names|
      ensures DecodeRecord(UpdateMessages(s)[i]) == Ok(Snapshot(s, s.names[i]))
    {
      RecordRoundTrip(Snapshot(s, s.names[i]));
    }
  }

  /** The leader's address list: every address followed by a comma. */
  function EncodeAddrList(addrs: seq<string>): (s: string)
    ensures (forall i :: 0 <= i < |addrs| ==> ',' !in addrs[i]) ==> Split(s, ',') == addrs + [""]
  {
    TerminatedSplits(addrs, ',');
    Terminated(addrs, ',')
  }

  /** `message.split(',')[:-1]`: every field before the last comma. */
  function DecodeAddrList(msg: string): (addrs: seq<string>)
    ensures ',' !in msg ==> addrs == []
    ensures forall i :: 0 <= i < |addrs| ==> ',' !in addrs[i]
  {
    var fields := Split(msg, ',');
    fields[..|fields| - 1]
  }

  /**
   What `split(',')[:-1]` keeps, for any text: the text is the
   comma-terminated list of the decoded addresses followed by a comma-free
   rest, and that decomposition is the only one with comma-free addresses.
   */
  lemma DecodeAddrListSplitsOff(msg: string)
    ensures exists tail :: ',' !in tail && msg == EncodeAddrList(DecodeAddrList(msg)) + tail
  {
    var fields := Split(msg, ',');
    var n := |fields|;
    JoinSplit(msg, ',');
    assert fields == fields[..n - 1] + [fields[n - 1]];
    JoinLast(fields[..n - 1], fields[n - 1], ',');
    assert ',' !in fields[n - 1];
  }

  /** The address list round-trips as long as no address holds a comma. */
  lemma AddrListRoundTrip(addrs: seq<string>)
    requires forall i :: 0 <= i < |addrs| ==> ',' !in addrs[i]
    ensures DecodeAddrList(EncodeAddrList(addrs)) == addrs
  {
    SplitTerminated(addrs, ',');
    assert (addrs + [""])[..|addrs|] == addrs;
  }

  /** The leader's first message to a client: the backup addresses, then `@` and no banner text. */
  function ServerGreeting(backups: seq<string>): (g: string)
    ensures ParseGreeting(g).Ok?
  {
    var g := EncodeAddrList(backups) + "@";
    assert g[|g| - 1] == '@';
    g
  }

  /** Why the client's greeting parse raises: no `@`, so `msg[1]` is out of range. */
  datatype GreetingError = NoBannerDelimiter

  /**
   The client's reading of a greeting: split on `@`; the addresses are
   decoded from the first field and the banner is the second field.
   */
  function ParseGreeting(msg: string): (r: Result<(seq<string>, string), GreetingError>)
    ensures r.Err? <==> '@' !in msg
    ensures r.Ok? ==> '@' !in r.value.1
  {
    var parts := Split(msg, '@');
    if |parts| < 2 then Err(NoBannerDelimiter) else Ok((DecodeAddrList(parts[0]), parts[1]))
  }

  /**
   `msg` reads as a greeting: `head` up to the first `@`, then `banner` up
   to the next `@` or the end, then `tail`.
   */
  ghost predicate GreetingShape(msg: string, head: string, banner: string, tail: string) {
    && '@' !in head && '@' !in banner && (tail == [] || tail[0] == '@')
    && msg == head + "@" + banner + tail
  }

  /**
   What the client takes from a greeting, for any text with an `@`: the
   addresses are decoded from everything before the first `@`, and the
   banner is everything between that `@` and the next one or the end.
   */
  lemma ParseGreetingSplitsOff(msg: string)
    requires '@' in msg
    ensures var r := ParseGreeting(msg).value;
      exists head, tail :: GreetingShape(msg, head, r.1, tail) && r.0 == DecodeAddrList(head)
  {
    var parts := Split(msg, '@');
    GreetingFields(msg);
    assert ParseGreeting(msg) == Ok((DecodeAddrList(parts[0]), parts[1]));
    assert GreetingShape(msg, parts[0], parts[1], GreetingTail(parts));
  }

  /** What follows the banner field of a greeting split on `@`: nothing, or `@` and the remaining fields. */
  function GreetingTail(parts: seq<string>): (tail: string)
    requires |parts| >= 2
    ensures tail == [] || tail[0] == '@'
  {
    if |parts| == 2 then "" else "@" + Join(parts[2..], '@')
  }

  /** A text with an `@` is its first field, `@`, its second field, and the tail. */
  lemma GreetingFields(msg: string)
    requires '@' in msg
    ensures var parts := Split(msg, '@');
      |parts| >= 2 && '@' !in parts[0] && '@' !in parts[1] && msg == parts[0] + "@" + parts[1] + GreetingTail(parts)
  {
    var parts := Split(msg, '@');
    JoinSplit(msg, '@');
    JoinFirstTwo(parts, '@');
  }

  /** A greeting with any `@`-free banner parses back into its addresses and banner. */
  lemma GreetingRoundTrip(backups: seq<string>, banner: string)
    requires forall i :: 0 <= i < |backups| ==> ',' !in backups[i] && '@' !in backups[i]
    requires '@' !in banner
    ensures ParseGreeting(EncodeAddrList(backups) + "@" + banner) == Ok((backups, banner))
  {
    var head := EncodeAddrList(backups);
    TerminatedAvoids(backups, ',', '@');
    SplitCons(head, banner, '@');
    SplitFree(banner, '@');
    assert Split(head + "@" + banner, '@') == [head, banner];
    AddrListRoundTrip(backups);
  }

  /** What the leader actually sends parses as its backup list with an empty banner. */
  lemma ServerGreetingParses(backups: seq<string>)
    requires forall i :: 0 <= i < |backups| ==> ',' !in backups[i] && '@' !in backups[i]
    ensures ParseGreeting(ServerGreeting(backups)) == Ok((backups, ""))
  {
    GreetingRoundTrip(backups, "");
    assert EncodeAddrList(backups) + "@" + "" == ServerGreeting(backups);
  }
}
