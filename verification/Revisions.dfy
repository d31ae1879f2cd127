/** Combined revisions (config/merge.go): length-prefixed source revisions joined by bars. */
module Revisions {

  function Digit(d: nat): char
    requires d < 10
  {
    "0123456789"[d]
  }

  /** The decimal numeral of a length. */
  function Numeral(n: nat): string {
    if n < 10 then [Digit(n)] else Numeral(n / 10) + [Digit(n % 10)]
  }

  function Item(revision: string): string {
    Numeral(|revision|) + ":" + revision
  }

  function Joined(revisions: seq<string>): string {
    if revisions == [] then ""
    else Item(revisions[0]) + (if |revisions| == 1 then "" else "|" + Joined(revisions[1..]))
  }

  function Combined(revisions: seq<string>): string {
    if |revisions| == 1 then revisions[0] else Joined(revisions)
  }

  lemma Regroup(a: string, b: string, c: string)
    ensures a + (b + c) == a + b + c
  {
  }

  lemma {:induction false} JoinedLast(revisions: seq<string>, last: string)
    requires revisions != []
    ensures Joined(revisions + [last]) == Joined(revisions) + "|" + Item(last)
    decreases |revisions|
  {
    var all := revisions + [last];
    var first, end := Item(revisions[0]), "|" + Item(last);
    if |revisions| == 1 {
      assert all[1..] == [last];
      Regroup(first, "|", Item(last));
    } else {
      assert all[1..] == revisions[1..] + [last];
      var rest := Joined(revisions[1..]);
      JoinedLast(revisions[1..], last);
      Regroup(rest, "|", Item(last));
      Regroup("|", rest, end);
      Regroup(first, "|" + rest, end);
      Regroup(first + ("|" + rest), "|", Item(last));
    }
  }

  method CombineRevisions(revisions: seq<string>) returns (combined: string)
    ensures combined == Combined(revisions)
  {
    if |revisions| == 1 {
      return revisions[0];
    }
    var builder := "";
    for i := 0 to |revisions|
      invariant builder == Joined(revisions[..i])
    {
      assert revisions[..i + 1] == revisions[..i] + [revisions[i]];
      if i > 0 {
        JoinedLast(revisions[..i], revisions[i]);
        builder := builder + "|";
      }
      builder := builder + Numeral(|revisions[i]|);
      builder := builder + ":";
      builder := builder + revisions[i];
    }
    assert revisions[..|revisions|] == revisions;
    return builder;
  }

  // ---------------------------------------------------------------------------
  // Injectivity
  // ---------------------------------------------------------------------------

  lemma {:induction false} NumeralHasNoColon(n: nat)
    ensures ':' !in Numeral(n) && Numeral(n) != ""
  {
    if n >= 10 {
      NumeralHasNoColon(n / 10);
    }
  }

  lemma DigitIsInjective(a: nat, b: nat)
    requires a < 10 && b < 10 && Digit(a) == Digit(b)
    ensures a == b
  {
  }

  lemma {:induction false} NumeralIsInjective(a: nat, b: nat)
    requires Numeral(a) == Numeral(b)
    ensures a == b
  {
    var s, t := Numeral(a), Numeral(b);
    NumeralHasNoColon(a / 10);
    NumeralHasNoColon(b / 10);
    assert a >= 10 ==> s[..|s| - 1] == Numeral(a / 10) && s[|s| - 1] == Digit(a % 10);
    assert b >= 10 ==> t[..|t| - 1] == Numeral(b / 10) && t[|t| - 1] == Digit(b % 10);
    if a >= 10 && b >= 10 {
      NumeralIsInjective(a / 10, b / 10);
      DigitIsInjective(a % 10, b % 10);
    } else if a < 10 && b < 10 {
      DigitIsInjective(a, b);
    }
  }

  /** The first mark splits a text in one way only. */
  lemma SplitAtMark(a: string, x: string, b: string, y: string, mark: char)
    requires mark !in a && mark !in b && a + [mark] + x == b + [mark] + y
    ensures a == b && x == y
  {
    var s := a + [mark] + x;
    assert s[|a|] == mark && s[|b|] == mark;
    assert a == s[..|a|] && b == s[..|b|];
    assert x == s[|a| + 1..] && y == s[|b| + 1..];
  }

  /** A length-prefixed revision can be read back, whatever follows it. */
  lemma ItemReadsBack(a: string, x: string, b: string, y: string)
    requires Item(a) + x == Item(b) + y
    ensures a == b && x == y
  {
    NumeralHasNoColon(|a|);
    NumeralHasNoColon(|b|);
    assert Item(a) + x == Numeral(|a|) + ":" + (a + x);
    assert Item(b) + y == Numeral(|b|) + ":" + (b + y);
    SplitAtMark(Numeral(|a|), a + x, Numeral(|b|), b + y, ':');
    NumeralIsInjective(|a|, |b|);
    assert a == (a + x)[..|a|] && b == (b + y)[..|b|];
    assert x == (a + x)[|a|..] && y == (b + y)[|b|..];
  }

  function Rest(revisions: seq<string>): string
    requires revisions != []
  {
    if |revisions| == 1 then "" else "|" + Joined(revisions[1..])
  }

  lemma RestReadsBack(a: seq<string>, b: seq<string>)
    requires a != [] && b != [] && Rest(a) == Rest(b)
    ensures |a| == 1 <==> |b| == 1
    ensures |a| > 1 ==> Joined(a[1..]) == Joined(b[1..])
  {
    if |a| > 1 && |b| > 1 {
      assert Rest(a)[1..] == Joined(a[1..]);
      assert Rest(b)[1..] == Joined(b[1..]);
    }
  }

  lemma JoinedIsNotEmpty(a: seq<string>)
    requires a != []
    ensures Joined(a) == Item(a[0]) + Rest(a) && Joined(a) != ""
  {
    assert ':' in Item(a[0]);
  }

  lemma HeadReadsBack(a: seq<string>, b: seq<string>)
    requires a != [] && b != [] && Joined(a) == Joined(b)
    ensures a[0] == b[0] && (|a| == 1 <==> |b| == 1)
    ensures |a| > 1 ==> Joined(a[1..]) == Joined(b[1..])
  {
    JoinedIsNotEmpty(a);
    JoinedIsNotEmpty(b);
    ItemReadsBack(a[0], Rest(a), b[0], Rest(b));
    RestReadsBack(a, b);
  }

  lemma {:induction false} JoinedIsInjective(a: seq<string>, b: seq<string>)
    requires Joined(a) == Joined(b)
    ensures a == b
    decreases |a|
  {
    if a == [] || b == [] {
      if a != [] { JoinedIsNotEmpty(a); }
      if b != [] { JoinedIsNotEmpty(b); }
    } else {
      HeadReadsBack(a, b);
      if |a| > 1 {
        JoinedIsInjective(a[1..], b[1..]);
      }
      assert a == [a[0]] + a[1..] && b == [b[0]] + b[1..];
    }
  }

  /**
   Two lists of revisions combine to the same text only if they are equal, for the same number of sources
   and, more generally, unless exactly one of them has a single entry, which is taken as it is.
   */
  lemma CombinedIsInjective(a: seq<string>, b: seq<string>)
    requires Combined(a) == Combined(b) && (|a| == 1 <==> |b| == 1)
    ensures a == b
  {
    if |a| != 1 {
      JoinedIsInjective(a, b);
    }
  }

  /** One source can imitate the combined revision of several. */
  lemma SingleSourceImitates(revisions: seq<string>)
    requires |revisions| != 1
    ensures Combined([Combined(revisions)]) == Combined(revisions) && [Combined(revisions)] != revisions
  {
  }
}
