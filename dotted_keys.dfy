/**
 * Dotted identifiers such as "net.sta.loc.chan": Python's `str.split(".")`
 * and `".".join(...)` on them, and the facts about the two that the channel
 * filters rely on.
 */
module DottedKeys {

  const Dot: char := '.'

  /** Python's `s.split(".")`: never empty, one more field than there are dots. */
  function Split(s: string): (fields: seq<string>)
    ensures |fields| >= 1
    ensures forall i :: 0 <= i < |fields| ==> Dot !in fields[i]
  {
    if s == [] then [[]]
    else
      var rest := Split(s[1..]);
      if s[0] == Dot then [[]] + rest
      else [[s[0]] + rest[0]] + rest[1..]
  }

  /** `"%s.%s" % (location, chan)`: two strings joined by one dot. */
  function KeyOf(location: string, chan: string): string
  {
    location + [Dot] + chan
  }

  /** The key `net.sta.loc.chan` written from its four fields. */
  function DottedKey(net: string, sta: string, loc: string, chan: string): string
  {
    KeyOf(KeyOf(KeyOf(net, sta), loc), chan)
  }

  /** Python's `".".join(fields)`. */
  function Join(fields: seq<string>): string
  {
    if |fields| == 0 then []
    else if |fields| == 1 then fields[0]
    else fields[0] + [Dot] + Join(fields[1..])
  }

  /** Number of dots in `s`. */
  function Dots(s: string): nat
  {
    if s == [] then 0 else (if s[0] == Dot then 1 else 0) + Dots(s[1..])
  }

  /** Splitting then joining gives the string back. */
  lemma {:induction false} JoinSplit(s: string)
    ensures Join(Split(s)) == s
  {
    if s != [] {
      var rest := Split(s[1..]);
      JoinSplit(s[1..]);
      if s[0] == Dot {
        assert ([[]] + rest)[1..] == rest;
      } else {
        var fields := [[s[0]] + rest[0]] + rest[1..];
        if |rest| > 1 {
          assert fields[1..] == rest[1..];
          assert Join(rest) == rest[0] + [Dot] + Join(rest[1..]);
        }
      }
    }
  }

  /** `str.split(".")` yields one field more than there are dots. */
  lemma {:induction false} SplitCount(s: string)
    ensures |Split(s)| == Dots(s) + 1
  {
    if s != [] {
      SplitCount(s[1..]);
    }
  }

  /** Splitting at a dot splits the two sides independently. */
  lemma {:induction false} SplitAround(a: string, b: string)
    ensures Split(a + [Dot] + b) == Split(a) + Split(b)
  {
    if a == [] {
      assert a + [Dot] + b == [Dot] + b;
      SplitCons(Dot, b);
    } else {
      assert a == [a[0]] + a[1..];
      assert a + [Dot] + b == [a[0]] + (a[1..] + [Dot] + b);
      SplitAround(a[1..], b);
      SplitAroundStep(a[0], a[1..], b);
    }
  }

  /** The step of `SplitAround` from `t` to `[c] + t`. */
  lemma SplitAroundStep(c: char, t: string, b: string)
    requires Split(t + [Dot] + b) == Split(t) + Split(b)
    ensures Split([c] + (t + [Dot] + b)) == Split([c] + t) + Split(b)
  {
    SplitCons(c, t + [Dot] + b);
    SplitCons(c, t);
    ConsFields(c, Split(t), Split(b));
  }

  /** Adding a character in front of the fields commutes with appending more fields. */
  lemma ConsFields(c: char, front: seq<string>, back: seq<string>)
    requires |front| >= 1
    ensures var fields := front + back;
      (if c == Dot then [[]] + fields else [[c] + fields[0]] + fields[1..])
      == (if c == Dot then [[]] + front else [[c] + front[0]] + front[1..]) + back
  {
    var fields := front + back;
    if c != Dot {
      assert fields[0] == front[0];
      assert fields[1..] == front[1..] + back;
    }
  }

  /** One step of `Split`: the first character either ends the first field or joins it. */
  lemma SplitCons(c: char, t: string)
    ensures Split([c] + t) == if c == Dot then [[]] + Split(t) else [[c] + Split(t)[0]] + Split(t)[1..]
  {
    assert ([c] + t)[1..] == t;
  }

  /** A string without dots is a single field. */
  lemma {:induction false} SplitDotless(s: string)
    requires Dot !in s
    ensures Split(s) == [s]
  {
    if s != [] {
      assert Dot !in s[1..] by {
        forall i | 0 <= i < |s[1..]| ensures s[1..][i] != Dot { assert s[1..][i] == s[i + 1]; }
      }
      SplitDotless(s[1..]);
      assert s[0] != Dot;
      assert [s[0]] + s[1..] == s;
    }
  }

  /** Joining dotless fields then splitting gives the fields back. */
  lemma {:induction false} SplitJoin(fields: seq<string>)
    requires |fields| >= 1
    requires forall i :: 0 <= i < |fields| ==> Dot !in fields[i]
    ensures Split(Join(fields)) == fields
  {
    if |fields| == 1 {
      SplitDotless(fields[0]);
    } else {
      SplitDotless(fields[0]);
      SplitJoin(fields[1..]);
      SplitAround(fields[0], Join(fields[1..]));
    }
  }

  /** Joining a concatenation puts one dot between the two joins. */
  lemma {:induction false} JoinAppend(a: seq<string>, b: seq<string>)
    requires |a| >= 1 && |b| >= 1
    ensures Join(a + b) == Join(a) + [Dot] + Join(b)
  {
    if |a| > 1 {
      assert (a + b)[1..] == a[1..] + b;
      JoinAppend(a[1..], b);
    } else {
      assert (a + b)[1..] == b;
    }
  }

  /** The fields of `prefix + "." + last` when `last` has no dot. */
  lemma SplitSnoc(prefix: string, last: string)
    requires Dot !in last
    ensures Split(prefix + [Dot] + last) == Split(prefix) + [last]
  {
    SplitAround(prefix, last);
    SplitDotless(last);
  }

  /** A dotless first field comes off by itself. */
  lemma SplitField(head: string, rest: string)
    requires Dot !in head
    ensures Split(head + [Dot] + rest) == [head] + Split(rest)
  {
    SplitAround(head, rest);
    SplitDotless(head);
  }

  /** A key built from four dotless fields splits back into them. */
  lemma FourFields(net: string, sta: string, loc: string, chan: string)
    requires Dot !in net && Dot !in sta && Dot !in loc && Dot !in chan
    ensures Split(net + [Dot] + sta + [Dot] + loc + [Dot] + chan) == [net, sta, loc, chan]
  {
    var tail := loc + [Dot] + chan;
    var middle := sta + [Dot] + tail;
    assert net + [Dot] + sta + [Dot] + loc + [Dot] + chan == net + [Dot] + middle;
    assert Split(tail) == [loc, chan] by {
      SplitField(loc, chan);
      SplitDotless(chan);
    }
    assert Split(middle) == [sta, loc, chan] by {
      SplitField(sta, tail);
    }
    SplitField(net, middle);
  }

  /** A key with an empty location code, `net.sta..chan`, still has four fields. */
  lemma EmptyLocationHasFourFields(net: string, sta: string, chan: string)
    requires Dot !in net && Dot !in sta && Dot !in chan
    ensures Split(net + [Dot] + sta + [Dot] + [Dot] + chan) == [net, sta, [], chan]
  {
    assert net + [Dot] + sta + [Dot] + [] + [Dot] + chan == net + [Dot] + sta + [Dot] + [Dot] + chan;
    FourFields(net, sta, [], chan);
  }
}
