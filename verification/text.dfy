/**
 The string primitives the chat protocol is built from: Python's `str.strip()`,
 `str.split(sep)` for a one-character separator, the `"x,y,"`-style
 terminated lists both wire formats use, and decimal integers as written by
 `'{}'.format(n)` and read back by `int(...)`.
 */
module Text {
  import opened Base

  /**
   The characters `int()` skips around a number: the ASCII whitespace of
   C's `isspace`, that is space, tab, newline, carriage return, vertical
   tab and form feed.
   */
  predicate IsIntSpace(c: char) {
    c == ' ' || c == '\t' || c == '\n' || c == '\r' || c == '\U{0B}' || c == '\U{0C}'
  }

  /**
   The ASCII characters `str.strip()` removes: those `int()` skips and
   also the four separators U+001C to U+001F.
   */
  predicate IsSpace(c: char) {
    IsIntSpace(c) || ('\U{1C}' <= c <= '\U{1F}')
  }

  /** Drops the leading characters that satisfy `ws`. */
  function TrimStart(s: string, ws: char -> bool): (r: string)
    ensures |r| <= |s| && r == s[|s| - |r|..]
    ensures r == [] || !ws(r[0])
    ensures |s| > 0 && !ws(s[0]) ==> r == s
    decreases |s|
  {
    if |s| > 0 && ws(s[0]) then TrimStart(s[1..], ws) else s
  }

  /** Drops the trailing characters that satisfy `ws`. */
  function TrimEnd(s: string, ws: char -> bool): (r: string)
    ensures |r| <= |s| && r == s[..|r|]
    ensures r == [] || !ws(r[|r| - 1])
    ensures |s| > 0 && !ws(s[|s| - 1]) ==> r == s
    decreases |s|
  {
    if |s| > 0 && ws(s[|s| - 1]) then TrimEnd(s[..|s| - 1], ws) else s
  }

  /** Drops the characters that satisfy `ws` from both ends. */
  function Trim(s: string, ws: char -> bool): (r: string)
    ensures |r| <= |s|
    ensures r == [] || (!ws(r[0]) && !ws(r[|r| - 1]))
    ensures |s| > 0 && !ws(s[0]) && !ws(s[|s| - 1]) ==> r == s
  {
    var t := TrimStart(s, ws);
    var r := TrimEnd(t, ws);
    assert r != [] ==> r[0] == t[0];
    r
  }

  /** Python's `s.strip()`: whitespace removed from both ends, nothing else. */
  function Strip(s: string): (r: string)
    ensures |r| <= |s|
    ensures r == [] || (!IsSpace(r[0]) && !IsSpace(r[|r| - 1]))
    ensures |s| > 0 && !IsSpace(s[0]) && !IsSpace(s[|s| - 1]) ==> r == s
  {
    Trim(s, IsSpace)
  }

  /** The text `int()` reads: the characters it skips removed from both ends. */
  function IntTrim(s: string): (r: string)
    ensures |r| <= |s|
    ensures r == [] || (!IsIntSpace(r[0]) && !IsIntSpace(r[|r| - 1]))
    ensures |s| > 0 && !IsIntSpace(s[0]) && !IsIntSpace(s[|s| - 1]) ==> r == s
  {
    Trim(s, IsIntSpace)
  }

  /** TrimStart drops nothing but characters that satisfy `ws`. */
  lemma {:induction false} TrimStartDropsOnly(s: string, ws: char -> bool)
    ensures forall i :: 0 <= i < |s| - |TrimStart(s, ws)| ==> ws(s[i])
    decreases |s|
  {
    if |s| > 0 && ws(s[0]) {
      TrimStartDropsOnly(s[1..], ws);
      forall i | 1 <= i < |s| - |TrimStart(s, ws)|
        ensures ws(s[i])
      {
        assert s[i] == s[1..][i - 1];
      }
    }
  }

  /** TrimEnd drops nothing but characters that satisfy `ws`. */
  lemma {:induction false} TrimEndDropsOnly(s: string, ws: char -> bool)
    ensures forall i :: |TrimEnd(s, ws)| <= i < |s| ==> ws(s[i])
    decreases |s|
  {
    if |s| > 0 && ws(s[|s| - 1]) {
      TrimEndDropsOnly(s[..|s| - 1], ws);
    }
  }

  /** How many characters `strip()` removes from the front of `s`. */
  function Leading(s: string): nat {
    |s| - |TrimStart(s, IsSpace)|
  }

  /**
   `strip()` removes whitespace only: the result is the slice of the text
   from position Leading(s), and every character before and after that
   slice is whitespace.
   */
  lemma StripRemovesOnlySpace(s: string)
    ensures var r := Strip(s);
      var p := Leading(s);
      && p + |r| <= |s| && r == s[p..p + |r|]
      && (forall i :: 0 <= i < p ==> IsSpace(s[i]))
      && (forall i :: p + |r| <= i < |s| ==> IsSpace(s[i]))
  {
    var t := TrimStart(s, IsSpace);
    var r := TrimEnd(t, IsSpace);
    assert Strip(s) == r && Leading(s) == |s| - |t|;
    assert forall i :: 0 <= i < |s| - |t| ==> IsSpace(s[i]) by {
      TrimStartDropsOnly(s, IsSpace);
    }
    assert forall i :: |r| <= i < |t| ==> IsSpace(t[i]) by {
      TrimEndDropsOnly(t, IsSpace);
    }
    SpaceAround(s, t, r);
  }

  /**
   `t` is `s` without some leading whitespace and `r` is `t` without some
   trailing whitespace: `r` is a slice of `s` with only whitespace around it.
   */
  lemma SpaceAround(s: string, t: string, r: string)
    requires |t| <= |s| && t == s[|s| - |t|..] && |r| <= |t| && r == t[..|r|]
    requires forall i :: 0 <= i < |s| - |t| ==> IsSpace(s[i])
    requires forall i :: |r| <= i < |t| ==> IsSpace(t[i])
    ensures var p := |s| - |t|;
      && p + |r| <= |s| && r == s[p..p + |r|]
      && (forall i :: p + |r| <= i < |s| ==> IsSpace(s[i]))
  {
    var p := |s| - |t|;
    forall i | p + |r| <= i < |s|
      ensures IsSpace(s[i])
    {
      assert s[i] == t[i - p];
    }
  }

  /** Stripping twice is stripping once. */
  lemma StripIdempotent(s: string)
    ensures Strip(Strip(s)) == Strip(s)
  {
  }

  /**
   Python's `s.split(sep)` for a one-character separator: the maximal
   separator-free fields, in order, always at least one.
   */
  function Split(s: string, sep: char): (parts: seq<string>)
    ensures |parts| >= 1
    ensures |parts| == 1 <==> sep !in s
    ensures forall i :: 0 <= i < |parts| ==> sep !in parts[i]
    decreases |s|
  {
    if |s| == 0 then [""]
    else
      var tail := Split(s[1..], sep);
      if s[0] == sep then [""] + tail else [[s[0]] + tail[0]] + tail[1..]
  }

  /** `sep.join(parts)`: the fields with one separator between neighbours. */
  function Join(parts: seq<string>, sep: char): string
    requires |parts| >= 1
    decreases |parts|
  {
    if |parts| == 1 then parts[0] else parts[0] + [sep] + Join(parts[1..], sep)
  }

  /** Every field followed by the separator, as in `"a,b,"`. */
  function Terminated(items: seq<string>, sep: char): string
    decreases |items|
  {
    if |items| == 0 then "" else items[0] + [sep] + Terminated(items[1..], sep)
  }

  /** A character other than the separator that no item contains does not occur in the terminated list. */
  lemma {:induction false} TerminatedAvoids(items: seq<string>, sep: char, c: char)
    requires c != sep
    requires forall i :: 0 <= i < |items| ==> c !in items[i]
    ensures c !in Terminated(items, sep)
    decreases |items|
  {
    if |items| > 0 {
      TerminatedAvoids(items[1..], sep, c);
    }
  }

  /** Joining the fields of a split gives back the original string, for every string. */
  lemma {:induction false} JoinSplit(s: string, sep: char)
    ensures Join(Split(s, sep), sep) == s
    decreases |s|
  {
    if |s| > 0 {
      JoinSplit(s[1..], sep);
      var tail := Split(s[1..], sep);
      if s[0] == sep {
        assert ([""] + tail)[1..] == tail;
        assert s == [sep] + s[1..];
      } else if |tail| == 1 {
        assert s == [s[0]] + s[1..];
      } else {
        var parts := [[s[0]] + tail[0]] + tail[1..];
        assert parts[1..] == tail[1..];
        assert s == [s[0]] + s[1..];
      }
    }
  }

  /** A separator-free string is a single field. */
  lemma {:induction false} SplitFree(a: string, sep: char)
    requires sep !in a
    ensures Split(a, sep) == [a]
    decreases |a|
  {
    if |a| > 0 {
      SplitFree(a[1..], sep);
      assert a == [a[0]] + a[1..];
    }
  }

  /** A separator-free field followed by the separator splits off as the first field. */
  lemma {:induction false} SplitCons(a: string, b: string, sep: char)
    requires sep !in a
    ensures Split(a + [sep] + b, sep) == [a] + Split(b, sep)
    decreases |a|
  {
    var s := a + [sep] + b;
    if |a| == 0 {
      assert s == [sep] + b;
      assert s[1..] == b;
    } else {
      assert s[1..] == a[1..] + [sep] + b;
      SplitCons(a[1..], b, sep);
      assert [a[0]] + a[1..] == a;
    }
  }

  /** Splitting a join of separator-free fields gives back exactly those fields. */
  lemma {:induction false} SplitJoin(parts: seq<string>, sep: char)
    requires |parts| >= 1
    requires forall i :: 0 <= i < |parts| ==> sep !in parts[i]
    ensures Split(Join(parts, sep), sep) == parts
    decreases |parts|
  {
    if |parts| == 1 {
      SplitFree(parts[0], sep);
    } else {
      SplitJoin(parts[1..], sep);
      SplitCons(parts[0], Join(parts[1..], sep), sep);
      assert [parts[0]] + parts[1..] == parts;
    }
  }

  /** A terminated list is the join of its items followed by one empty field. */
  lemma {:induction false} TerminatedIsJoin(items: seq<string>, sep: char)
    ensures Terminated(items, sep) == Join(items + [""], sep)
    decreases |items|
  {
    if |items| > 0 {
      TerminatedIsJoin(items[1..], sep);
      assert (items + [""])[1..] == items[1..] + [""];
    }
  }

  /** SplitTerminated, for any items: when none holds the separator, the split gives them back. */
  lemma TerminatedSplits(items: seq<string>, sep: char)
    ensures (forall i :: 0 <= i < |items| ==> sep !in items[i]) ==> Split(Terminated(items, sep), sep) == items + [""]
  {
    if forall i :: 0 <= i < |items| ==> sep !in items[i] {
      SplitTerminated(items, sep);
    }
  }

  /** A join of two or more fields: the first field, the separator, the second, then the rest. */
  lemma JoinFirstTwo(parts: seq<string>, sep: char)
    requires |parts| >= 2
    ensures Join(parts, sep) == parts[0] + [sep] + parts[1] + (if |parts| == 2 then [] else [sep] + Join(parts[2..], sep))
  {
    assert parts[1..][0] == parts[1];
    if |parts| > 2 {
      assert parts[1..][1..] == parts[2..];
    }
  }

  /** Joining items and one last field is the terminated list of the items followed by that field. */
  lemma {:induction false} JoinLast(items: seq<string>, last: string, sep: char)
    ensures Join(items + [last], sep) == Terminated(items, sep) + last
    decreases |items|
  {
    if |items| == 0 {
      assert items + [last] == [last];
    } else {
      JoinLast(items[1..], last, sep);
      assert (items + [last])[1..] == items[1..] + [last];
    }
  }

  /** Splitting a terminated list of separator-free items yields the items and a trailing empty field. */
  lemma SplitTerminated(items: seq<string>, sep: char)
    requires forall i :: 0 <= i < |items| ==> sep !in items[i]
    ensures Split(Terminated(items, sep), sep) == items + [""]
  {
    TerminatedIsJoin(items, sep);
    SplitJoin(items + [""], sep);
  }

  predicate IsDigit(c: char) {
    '0' <= c <= '9'
  }

  predicate AllDigits(s: string) {
    forall i :: 0 <= i < |s| ==> IsDigit(s[i])
  }

  /** The decimal digit character for `d`. */
  function Digit(d: nat): (c: char)
    requires d < 10
    ensures IsDigit(c) && c as int - '0' as int == d
  {
    ('0' as int + d) as char
  }

  /** The value of a string of decimal digits, leading zeros allowed. */
  function DigitsValue(s: string): nat
    requires AllDigits(s)
    decreases |s|
  {
    if |s| == 0 then 0 else 10 * DigitsValue(s[..|s| - 1]) + (s[|s| - 1] as int - '0' as int)
  }

  /** `'{}'.format(n)` for a natural number: its shortest decimal form. */
  function ShowNat(n: nat): (s: string)
    ensures |s| >= 1 && AllDigits(s)
    decreases n
  {
    if n < 10 then [Digit(n)] else ShowNat(n / 10) + [Digit(n % 10)]
  }

  /** The digits ShowNat writes denote the number written. */
  lemma {:induction false} ShowNatValue(n: nat)
    ensures DigitsValue(ShowNat(n)) == n
    decreases n
  {
    if n >= 10 {
      ShowNatValue(n / 10);
      var s := ShowNat(n);
      assert s[..|s| - 1] == ShowNat(n / 10);
    }
  }

  /**
   Python's `int(s)` on text: the whitespace of IsIntSpace ignored at both
   ends, an optional sign, then ASCII decimal digits. None stands for the
   ValueError Python raises on anything else (including the empty string).
   */
  function ParseInt(s: string): (r: Option<int>)
    ensures r.Some? ==> |s| > 0
  {
    ParseStripped(IntTrim(s))
  }

  /** `int()` of a non-empty run of decimal digits is the number they denote, leading zeros allowed. */
  lemma ParseIntDigits(s: string)
    requires |s| > 0 && AllDigits(s)
    ensures ParseInt(s) == Some(DigitsValue(s))
  {
    assert !IsIntSpace(s[0]) && !IsIntSpace(s[|s| - 1]);
    assert IntTrim(s) == s;
    assert ParseInt(s) == ParseStripped(s);
  }

  /** `int()` on text with the whitespace around it already removed. */
  function ParseStripped(t: string): (r: Option<int>)
    ensures r.Some? ==> |t| > 0
    ensures |t| > 0 && AllDigits(t) ==> r == Some(DigitsValue(t))
  {
    if |t| >= 2 && (t[0] == '-' || t[0] == '+') && AllDigits(t[1..]) then
      var magnitude: int := DigitsValue(t[1..]);
      Some(if t[0] == '-' then -magnitude else magnitude)
    else if |t| >= 1 && AllDigits(t) then
      Some(DigitsValue(t))
    else
      None
  }

  /** `int()` reads back what `'{}'.format(n)` writes. */
  lemma ParseShowNat(n: nat)
    ensures ParseInt(ShowNat(n)) == Some(n)
  {
    ParseIntDigits(ShowNat(n));
    ShowNatValue(n);
  }

  /** Whitespace in front of a text is dropped by TrimStart. */
  lemma {:induction false} TrimStartSkips(pre: string, t: string, ws: char -> bool)
    requires forall i :: 0 <= i < |pre| ==> ws(pre[i])
    ensures TrimStart(pre + t, ws) == TrimStart(t, ws)
    decreases |pre|
  {
    if |pre| > 0 {
      assert (pre + t)[0] == pre[0] && ws(pre[0]);
      assert (pre + t)[1..] == pre[1..] + t;
      TrimStartSkips(pre[1..], t, ws);
    } else {
      assert pre + t == t;
    }
  }

  /** Whitespace after a text is dropped by TrimEnd. */
  lemma {:induction false} TrimEndSkips(t: string, post: string, ws: char -> bool)
    requires forall i :: 0 <= i < |post| ==> ws(post[i])
    ensures TrimEnd(t + post, ws) == TrimEnd(t, ws)
    decreases |post|
  {
    if |post| > 0 {
      var u := t + post;
      assert u[|u| - 1] == post[|post| - 1] && ws(post[|post| - 1]);
      assert u[..|u| - 1] == t + post[..|post| - 1];
      TrimEndSkips(t, post[..|post| - 1], ws);
    } else {
      assert t + post == t;
    }
  }

  /** TrimStart of a text followed by whitespace: the whitespace survives unless nothing else does. */
  lemma {:induction false} TrimStartAppend(s: string, post: string, ws: char -> bool)
    requires forall i :: 0 <= i < |post| ==> ws(post[i])
    ensures TrimStart(s + post, ws) == if TrimStart(s, ws) == [] then [] else TrimStart(s, ws) + post
    decreases |s|
  {
    if |s| == 0 {
      assert s + post == post + [];
      TrimStartSkips(post, [], ws);
    } else if ws(s[0]) {
      assert (s + post)[1..] == s[1..] + post;
      TrimStartAppend(s[1..], post, ws);
    }
  }

  /**
   `int()` ignores the whitespace it skips around the number, such as the
   newline a client line ends with: any amount of it before and after the
   text leaves the answer as it was.
   */
  lemma ParseIntStrips(pre: string, s: string, post: string)
    requires forall i :: 0 <= i < |pre| ==> IsIntSpace(pre[i])
    requires forall i :: 0 <= i < |post| ==> IsIntSpace(post[i])
    ensures ParseInt(pre + s + post) == ParseInt(s)
  {
    assert pre + s + post == pre + (s + post);
    TrimStartSkips(pre, s + post, IsIntSpace);
    TrimStartAppend(s, post, IsIntSpace);
    var t := TrimStart(s, IsIntSpace);
    if t != [] {
      TrimEndSkips(t, post, IsIntSpace);
    }
  }

  /**
   `int()` does not skip what only `strip()` removes: a number followed by
   U+001C is rejected, although stripping it leaves the number.
   */
  lemma ParseIntRejectsSeparator()
    ensures Strip("1" + ['\U{1C}']) == "1"
    ensures ParseInt("1" + ['\U{1C}']) == None
  {
    var s := "1" + ['\U{1C}'];
    assert TrimStart(s, IsSpace) == s;
    assert s[..1] == "1";
    assert TrimEnd(s, IsSpace) == TrimEnd("1", IsSpace);
    assert TrimStart(s, IsIntSpace) == s;
    assert IntTrim(s) == s;
    assert !IsDigit(s[1]);
  }
}
