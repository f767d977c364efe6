/** The terminal table `ts` of generate_parser_cpp and its `terminal`
    lambda (tools/parser_gen/parser_gen.h:42, 90-95): a table of distinct
    characters, seeded with NUL, that grows by appending each character the
    first time it is asked for. */
module Interner {
  import opened Text

  const NUL: char := 0 as char

  predicate NoDup(s: seq<char>)
  {
    forall i, j :: 0 <= i < j < |s| ==> s[i] != s[j]
  }

  /** The `terminal` lambda on a table value: the index of `c` and the
      table afterwards. */
  function Terminal(ts: seq<char>, c: char): (r: (nat, seq<char>))
    ensures r.0 < |r.1| && r.1[r.0] == c
    ensures c in ts ==> r.1 == ts && c !in ts[..r.0]
    ensures c !in ts ==> r.1 == ts + [c] && r.0 == |ts|
  {
    var k := Find(ts, c);
    if k < |ts| then (k, ts) else (|ts|, ts + [c])
  }

  lemma TerminalKeepsNoDup(ts: seq<char>, c: char)
    requires NoDup(ts)
    ensures NoDup(Terminal(ts, c).1)
  {
  }

  /** The table after interning every character of `cs` in order. */
  function Extend(ts: seq<char>, cs: seq<char>): (t: seq<char>)
    decreases |cs|
  {
    if cs == [] then ts else Extend(Terminal(ts, cs[0]).1, cs[1..])
  }

  /** The table is only ever appended to. */
  lemma {:induction false} ExtendKeepsPrefix(ts: seq<char>, cs: seq<char>)
    ensures |ts| <= |Extend(ts, cs)| && Extend(ts, cs)[..|ts|] == ts
    decreases |cs|
  {
    if cs != [] {
      var ts1 := Terminal(ts, cs[0]).1;
      ExtendKeepsPrefix(ts1, cs[1..]);
      assert ts1[..|ts|] == ts;
    }
  }

  /** Entries stay pairwise distinct. */
  lemma {:induction false} ExtendKeepsNoDup(ts: seq<char>, cs: seq<char>)
    requires NoDup(ts)
    ensures NoDup(Extend(ts, cs))
    decreases |cs|
  {
    if cs != [] {
      TerminalKeepsNoDup(ts, cs[0]);
      ExtendKeepsNoDup(Terminal(ts, cs[0]).1, cs[1..]);
    }
  }

  /** Exactly the seed entries and the interned characters are in the table. */
  lemma {:induction false} ExtendElements(ts: seq<char>, cs: seq<char>, x: char)
    ensures x in Extend(ts, cs) <==> x in ts || x in cs
    decreases |cs|
  {
    if cs != [] {
      ExtendElements(Terminal(ts, cs[0]).1, cs[1..], x);
      HeadTail(cs);
    }
  }

  lemma FindShift(ts: seq<char>, c: char, rest: seq<char>, x: char)
    requires c in ts
    ensures Find(ts + ([c] + rest), x) == if x in ts then Find(ts + rest, x) else Find(ts + rest, x) + 1
    ensures Find(ts + rest, x) < |ts| <==> x in ts
  {
    FindConcat(ts, [c] + rest, x);
    FindConcat(ts, rest, x);
    if x !in ts {
      assert ([c] + rest)[1..] == rest;
    }
  }

  /** A table without duplicates lists its entries in first-use order. */
  lemma SeedOrder(ts: seq<char>)
    requires NoDup(ts)
    ensures forall i, j :: 0 <= i < j < |ts| ==> Find(ts, ts[i]) < Find(ts, ts[j])
  {
    forall i | 0 <= i < |ts| ensures Find(ts, ts[i]) == i {
      FindUnique(ts, ts[i], i);
    }
  }

  /** A character already in the table, used again, changes no order. */
  lemma RepeatKeepsOrder(ts: seq<char>, c: char, rest: seq<char>, e: seq<char>)
    requires c in ts
    requires forall i, j :: 0 <= i < j < |e| ==> Find(ts + rest, e[i]) < Find(ts + rest, e[j])
    ensures forall i, j :: 0 <= i < j < |e| ==> Find(ts + ([c] + rest), e[i]) < Find(ts + ([c] + rest), e[j])
  {
    forall i, j | 0 <= i < j < |e| ensures Find(ts + ([c] + rest), e[i]) < Find(ts + ([c] + rest), e[j]) {
      FindShift(ts, c, rest, e[i]);
      FindShift(ts, c, rest, e[j]);
    }
  }

  /** First-use order: when the seed has no duplicates, the entries of the
      table appear in the order in which they first occur in the seed
      followed by the interned characters. */
  lemma {:induction false} ExtendFirstUseOrder(ts: seq<char>, cs: seq<char>)
    requires NoDup(ts)
    ensures var e := Extend(ts, cs);
      forall i, j :: 0 <= i < j < |e| ==> Find(ts + cs, e[i]) < Find(ts + cs, e[j])
    decreases |cs|
  {
    if cs == [] {
      assert ts + cs == ts;
      SeedOrder(ts);
    } else {
      var c, rest := cs[0], cs[1..];
      var ts1 := Terminal(ts, c).1;
      TerminalKeepsNoDup(ts, c);
      ExtendFirstUseOrder(ts1, rest);
      HeadTail(cs);
      assert Extend(ts, cs) == Extend(ts1, rest);
      if c !in ts {
        assert ts1 + rest == ts + cs;
      } else {
        RepeatKeepsOrder(ts, c, rest, Extend(ts1, rest));
      }
    }
  }

  /** The table object that `terminal` updates in place. */
  class TerminalTable {
    var ts: seq<char>

    /** ts[0] is the NUL seed and no character is entered twice. */
    ghost predicate Valid()
      reads this
    {
      |ts| > 0 && ts[0] == NUL && NoDup(ts)
    }

    /** `std::vector<C> ts{ (C)0 }` (parser_gen.h:42). */
    constructor ()
      ensures Valid() && ts == [NUL]
    {
      ts := [NUL];
    }

    /** Linear search, otherwise `push_back` and the new last index
        (parser_gen.h:90-95). */
    method Intern(c: char) returns (k: nat)
      requires Valid()
      modifies this
      ensures Valid()
      ensures (k, ts) == Terminal(old(ts), c)
      ensures k < |ts| && ts[k] == c
      ensures c in old(ts) ==> ts == old(ts) && c !in ts[..k]
      ensures c !in old(ts) ==> ts == old(ts) + [c] && k == |old(ts)|
    {
      var n := 0;
      while n < |ts|
        invariant n <= |ts| && c !in ts[..n]
      {
        if ts[n] == c {
          FindUnique(ts, c, n);
          return n;
        }
        assert ts[..n + 1] == ts[..n] + [ts[n]];
        n := n + 1;
      }
      assert ts[..n] == ts;
      ts := ts + [c];
      k := |ts| - 1;
    }
  }
}
