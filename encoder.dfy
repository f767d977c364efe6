/** gen_prods (tools/parser_gen/parser_gen.h:88-115): each production is
    written as one `q(nt(lhs), (…) & (…));` statement, and each terminal
    on the way is interned into the terminal table.

    The model splits the lambda in two: Resolve replaces every literal by
    the reference gen_prods prints for it (interning terminals, threading
    the table), and Show gives the text of the resolved productions. The
    method GenProds does both in one pass, as the source does. */
module Encoder {
  import opened Text
  import opened Grammar
  import opened Interner

  /** What gen_prods prints for a literal: `nt(n)`, `nul` or `t(k)`. */
  datatype Ref = RNt(n: nat) | RNul | RT(k: nat)

  /** A production with its literals resolved. */
  datatype EncProd = EncProd(lhs: nat, alts: seq<seq<Ref>>)

  // ---------------------------------------------------------------------
  // Resolution against the terminal table

  function ResolveLit(l: Lit, ts: seq<char>): (r: (Ref, seq<char>))
  {
    match l
    case NT(n) => (RNt(n), ts)
    case Nul => (RNul, ts)
    case T(c) => (RT(Terminal(ts, c).0), Terminal(ts, c).1)
  }

  function ResolveLits(ls: seq<Lit>, ts: seq<char>): (r: (seq<Ref>, seq<char>))
    decreases |ls|
  {
    if ls == [] then ([], ts)
    else
      var head := ResolveLit(ls[0], ts);
      var tail := ResolveLits(ls[1..], head.1);
      ([head.0] + tail.0, tail.1)
  }

  function ResolveAlts(xs: seq<seq<Lit>>, ts: seq<char>): (r: (seq<seq<Ref>>, seq<char>))
    decreases |xs|
  {
    if xs == [] then ([], ts)
    else
      var head := ResolveLits(xs[0], ts);
      var tail := ResolveAlts(xs[1..], head.1);
      ([head.0] + tail.0, tail.1)
  }

  function ResolveProds(ps: seq<Production>, ts: seq<char>): (r: (seq<EncProd>, seq<char>))
    decreases |ps|
  {
    if ps == [] then ([], ts)
    else
      var head := ResolveAlts(ps[0].alts, ts);
      var tail := ResolveProds(ps[1..], head.1);
      ([EncProd(ps[0].lhs, head.0)] + tail.0, tail.1)
  }

  // ---------------------------------------------------------------------
  // The terminals of a grammar, in the order gen_prods meets them

  function LitTerms(ls: seq<Lit>): (t: seq<char>)
    decreases |ls|
  {
    if ls == [] then []
    else (if ls[0].T? then [ls[0].c] else []) + LitTerms(ls[1..])
  }

  function AltTerms(xs: seq<seq<Lit>>): (t: seq<char>)
    decreases |xs|
  {
    if xs == [] then [] else LitTerms(xs[0]) + AltTerms(xs[1..])
  }

  function ProdTerms(ps: seq<Production>): (t: seq<char>)
    decreases |ps|
  {
    if ps == [] then [] else AltTerms(ps[0].alts) + ProdTerms(ps[1..])
  }

  lemma {:induction false} ExtendConcat(ts: seq<char>, a: seq<char>, b: seq<char>)
    ensures Extend(ts, a + b) == Extend(Extend(ts, a), b)
    decreases |a|
  {
    if a != [] {
      assert (a + b)[0] == a[0] && (a + b)[1..] == a[1..] + b;
      ExtendConcat(Terminal(ts, a[0]).1, a[1..], b);
    } else {
      assert a + b == b;
    }
  }

  lemma {:induction false} ResolveLitsTable(ls: seq<Lit>, ts: seq<char>)
    ensures ResolveLits(ls, ts).1 == Extend(ts, LitTerms(ls))
    decreases |ls|
  {
    if ls != [] {
      var ts1 := ResolveLit(ls[0], ts).1;
      ResolveLitsTable(ls[1..], ts1);
      var head: seq<char> := if ls[0].T? then [ls[0].c] else [];
      ExtendConcat(ts, head, LitTerms(ls[1..]));
      if ls[0].T? {
        assert Extend(ts, head) == Extend(ts1, []);
      }
    }
  }

  lemma {:induction false} ResolveAltsTable(xs: seq<seq<Lit>>, ts: seq<char>)
    ensures ResolveAlts(xs, ts).1 == Extend(ts, AltTerms(xs))
    decreases |xs|
  {
    if xs != [] {
      ResolveLitsTable(xs[0], ts);
      ResolveAltsTable(xs[1..], ResolveLits(xs[0], ts).1);
      ExtendConcat(ts, LitTerms(xs[0]), AltTerms(xs[1..]));
    }
  }

  /** The final table is the seed extended by the grammar's terminals in
      the order they are met, so every Extend lemma applies to it. */
  lemma {:induction false} ResolveProdsTable(ps: seq<Production>, ts: seq<char>)
    ensures ResolveProds(ps, ts).1 == Extend(ts, ProdTerms(ps))
    decreases |ps|
  {
    if ps != [] {
      ResolveAltsTable(ps[0].alts, ts);
      ResolveProdsTable(ps[1..], ResolveAlts(ps[0].alts, ts).1);
      ExtendConcat(ts, AltTerms(ps[0].alts), ProdTerms(ps[1..]));
    }
  }

  // ---------------------------------------------------------------------
  // Reading references back against a table

  predicate LitsIn(rs: seq<Ref>, n: nat)
  {
    forall i :: 0 <= i < |rs| ==> (rs[i].RT? ==> rs[i].k < n)
  }

  predicate AltsIn(xs: seq<seq<Ref>>, n: nat)
  {
    forall i :: 0 <= i < |xs| ==> LitsIn(xs[i], n)
  }

  predicate ProdsIn(ps: seq<EncProd>, n: nat)
  {
    forall i :: 0 <= i < |ps| ==> AltsIn(ps[i].alts, n)
  }

  /** The literal a reference stands for when `t(k)` means `ts[k]`. */
  function DenoteRef(r: Ref, ts: seq<char>): (l: Lit)
    requires r.RT? ==> r.k < |ts|
  {
    match r
    case RNt(n) => NT(n)
    case RNul => Nul
    case RT(k) => T(ts[k])
  }

  function DenoteLits(rs: seq<Ref>, ts: seq<char>): (ls: seq<Lit>)
    requires LitsIn(rs, |ts|)
    ensures |ls| == |rs|
  {
    seq(|rs|, i requires 0 <= i < |rs| => DenoteRef(rs[i], ts))
  }

  function DenoteAlts(xs: seq<seq<Ref>>, ts: seq<char>): (ls: seq<seq<Lit>>)
    requires AltsIn(xs, |ts|)
    ensures |ls| == |xs|
  {
    seq(|xs|, i requires 0 <= i < |xs| => DenoteLits(xs[i], ts))
  }

  function DenoteProds(ps: seq<EncProd>, ts: seq<char>): (gs: seq<Production>)
    requires ProdsIn(ps, |ts|)
    ensures |gs| == |ps|
  {
    seq(|ps|, i requires 0 <= i < |ps| => Production(ps[i].lhs, DenoteAlts(ps[i].alts, ts)))
  }

  /** Index consistency for one alternative: resolving against `ts` only
      appends to it, and every reference, read against ANY later table,
      means the literal it came from. */
  lemma {:induction false} ResolveLitsConsistent(ls: seq<Lit>, ts: seq<char>, fin: seq<char>)
    requires StartsWith(fin, ResolveLits(ls, ts).1)
    ensures StartsWith(ResolveLits(ls, ts).1, ts)
    ensures LitsIn(ResolveLits(ls, ts).0, |fin|)
    ensures DenoteLits(ResolveLits(ls, ts).0, fin) == ls
    decreases |ls|
  {
    if ls != [] {
      var (r, ts1) := ResolveLit(ls[0], ts);
      var (rs, ts2) := ResolveLits(ls[1..], ts1);
      ResolveLitsConsistent(ls[1..], ts1, fin);
      assert StartsWith(ts1, ts);
      assert StartsWith(fin, ts1) by {
        assert fin[..|ts1|] == fin[..|ts2|][..|ts1|];
      }
      assert fin[..|ts|] == fin[..|ts1|][..|ts|];
      var all := [r] + rs;
      assert all[0] == r && all[1..] == rs;
      var d := DenoteLits(all, fin);
      assert d[0] == ls[0];
      assert d[1..] == DenoteLits(rs, fin);
      HeadTail(d);
      HeadTail(ls);
    }
  }

  lemma {:induction false} ResolveAltsConsistent(xs: seq<seq<Lit>>, ts: seq<char>, fin: seq<char>)
    requires StartsWith(fin, ResolveAlts(xs, ts).1)
    ensures StartsWith(ResolveAlts(xs, ts).1, ts)
    ensures AltsIn(ResolveAlts(xs, ts).0, |fin|)
    ensures DenoteAlts(ResolveAlts(xs, ts).0, fin) == xs
    decreases |xs|
  {
    if xs != [] {
      var (a, ts1) := ResolveLits(xs[0], ts);
      var (rest, ts2) := ResolveAlts(xs[1..], ts1);
      ResolveAltsConsistent(xs[1..], ts1, fin);
      assert StartsWith(fin, ts1) by {
        assert fin[..|ts1|] == fin[..|ts2|][..|ts1|];
      }
      ResolveLitsConsistent(xs[0], ts, fin);
      assert ts2[..|ts|] == ts2[..|ts1|][..|ts|];
      var all := [a] + rest;
      assert all[0] == a && all[1..] == rest;
      var d := DenoteAlts(all, fin);
      assert d[1..] == DenoteAlts(rest, fin);
      HeadTail(d);
      HeadTail(xs);
    }
  }

  lemma {:induction false} ResolveProdsConsistent(ps: seq<Production>, ts: seq<char>, fin: seq<char>)
    requires StartsWith(fin, ResolveProds(ps, ts).1)
    ensures StartsWith(ResolveProds(ps, ts).1, ts)
    ensures ProdsIn(ResolveProds(ps, ts).0, |fin|)
    ensures DenoteProds(ResolveProds(ps, ts).0, fin) == ps
    decreases |ps|
  {
    if ps != [] {
      var (a, ts1) := ResolveAlts(ps[0].alts, ts);
      var (rest, ts2) := ResolveProds(ps[1..], ts1);
      ResolveProdsConsistent(ps[1..], ts1, fin);
      assert StartsWith(fin, ts1) by {
        assert fin[..|ts1|] == fin[..|ts2|][..|ts1|];
      }
      ResolveAltsConsistent(ps[0].alts, ts, fin);
      assert ts2[..|ts|] == ts2[..|ts1|][..|ts|];
      var all := [EncProd(ps[0].lhs, a)] + rest;
      assert all[0] == EncProd(ps[0].lhs, a) && all[1..] == rest;
      var d := DenoteProds(all, fin);
      assert d[1..] == DenoteProds(rest, fin);
      HeadTail(d);
      HeadTail(ps);
    }
  }

  /** The central invariant: read against the terminal table xs it stands
      after the whole grammar has been encoded (the table gen_ts renders),
      every `t(k)` gen_prods printed is in range and names the terminal it
      was printed for, and every other reference is the literal it came
      from; so the printed references give back the grammar exactly. */
  lemma IndexConsistency(ps: seq<Production>, ts: seq<char>)
    ensures var (rs, fin) := ResolveProds(ps, ts);
      StartsWith(fin, ts) && ProdsIn(rs, |fin|) && DenoteProds(rs, fin) == ps
  {
    var fin := ResolveProds(ps, ts).1;
    assert fin[..|fin|] == fin;
    ResolveProdsConsistent(ps, ts, fin);
  }

  /** Pointwise reading of IndexConsistency for terminals: the literal at
      (production p, alternative a, position l) is the terminal `c` exactly
      when the printed reference is some `t(k)` with `fin[k] == c`. */
  lemma TerminalRefsAgree(ps: seq<Production>, ts: seq<char>, p: nat, a: nat, l: nat, c: char)
    requires p < |ps| && a < |ps[p].alts| && l < |ps[p].alts[a]|
    ensures var (rs, fin) := ResolveProds(ps, ts);
      p < |rs| && a < |rs[p].alts| && l < |rs[p].alts[a]| &&
      (ps[p].alts[a][l] == T(c) <==>
        (rs[p].alts[a][l].RT? && rs[p].alts[a][l].k < |fin| && fin[rs[p].alts[a][l].k] == c))
  {
    var (rs, fin) := ResolveProds(ps, ts);
    IndexConsistency(ps, ts);
    assert DenoteProds(rs, fin)[p].alts[a][l] == ps[p].alts[a][l];
  }

  // ---------------------------------------------------------------------
  // The printed text

  function ShowRef(r: Ref): (s: string)
  {
    match r
    case RNt(n) => "nt(" + NatToString(n) + ")"
    case RNul => "nul"
    case RT(k) => "t(" + NatToString(k) + ")"
  }

  /** `+` between literals; the separator goes before every literal but
      the first (the `first_l` flag). */
  function PlusTail(rs: seq<Ref>): (s: string)
    decreases |rs|
  {
    if rs == [] then "" else "+" + ShowRef(rs[0]) + PlusTail(rs[1..])
  }

  function ShowLits(rs: seq<Ref>): (s: string)
  {
    if rs == [] then "" else ShowRef(rs[0]) + PlusTail(rs[1..])
  }

  function ShowAlt(rs: seq<Ref>): (s: string)
  {
    "(" + ShowLits(rs) + ")"
  }

  /** ` & ` between alternatives (the `first_c` flag). */
  function AmpTail(xs: seq<seq<Ref>>): (s: string)
    decreases |xs|
  {
    if xs == [] then "" else " & " + ShowAlt(xs[0]) + AmpTail(xs[1..])
  }

  function ShowAlts(xs: seq<seq<Ref>>): (s: string)
  {
    if xs == [] then "" else ShowAlt(xs[0]) + AmpTail(xs[1..])
  }

  function ShowProd(p: EncProd): (s: string)
  {
    "\t\tq(nt(" + NatToString(p.lhs) + "), " + ShowAlts(p.alts) + ");\n"
  }

  function ShowProds(ps: seq<EncProd>): (s: string)
    decreases |ps|
  {
    if ps == [] then "" else ShowProd(ps[0]) + ShowProds(ps[1..])
  }

  lemma {:induction false} PlusTailSnoc(rs: seq<Ref>, r: Ref)
    ensures PlusTail(rs + [r]) == PlusTail(rs) + "+" + ShowRef(r)
    decreases |rs|
  {
    if rs == [] {
      assert rs + [r] == [r];
    } else {
      assert (rs + [r])[1..] == rs[1..] + [r];
      PlusTailSnoc(rs[1..], r);
    }
  }

  lemma ShowLitsSnoc(rs: seq<Ref>, r: Ref)
    ensures ShowLits(rs + [r]) == ShowLits(rs) + (if rs == [] then "" else "+") + ShowRef(r)
  {
    if rs == [] {
      assert rs + [r] == [r];
    } else {
      assert (rs + [r])[1..] == rs[1..] + [r];
      PlusTailSnoc(rs[1..], r);
    }
  }

  lemma {:induction false} AmpTailSnoc(xs: seq<seq<Ref>>, a: seq<Ref>)
    ensures AmpTail(xs + [a]) == AmpTail(xs) + " & " + ShowAlt(a)
    decreases |xs|
  {
    if xs == [] {
      assert xs + [a] == [a];
    } else {
      assert (xs + [a])[1..] == xs[1..] + [a];
      AmpTailSnoc(xs[1..], a);
    }
  }

  lemma ShowAltsSnoc(xs: seq<seq<Ref>>, a: seq<Ref>)
    ensures ShowAlts(xs + [a]) == ShowAlts(xs) + (if xs == [] then "" else " & ") + ShowAlt(a)
  {
    if xs == [] {
      assert xs + [a] == [a];
    } else {
      assert (xs + [a])[1..] == xs[1..] + [a];
      AmpTailSnoc(xs[1..], a);
    }
  }

  lemma {:induction false} ShowProdsSnoc(ps: seq<EncProd>, p: EncProd)
    ensures ShowProds(ps + [p]) == ShowProds(ps) + ShowProd(p)
    decreases |ps|
  {
    if ps == [] {
      assert ps + [p] == [p];
    } else {
      assert (ps + [p])[1..] == ps[1..] + [p];
      ShowProdsSnoc(ps[1..], p);
    }
  }

  // ---------------------------------------------------------------------
  // The lambda itself

  /** One turn of GenAlt's loop: `whole` is what is left to resolve from
      position k on, plus what is done. */
  lemma LitsLoopStep(c: seq<Lit>, k: nat, ts: seq<char>, done: seq<Ref>, whole: (seq<Ref>, seq<char>))
    requires k < |c|
    requires whole.0 == done + ResolveLits(c[k..], ts).0
    requires whole.1 == ResolveLits(c[k..], ts).1
    ensures var (r, ts1) := ResolveLit(c[k], ts);
      whole.0 == (done + [r]) + ResolveLits(c[k + 1..], ts1).0 &&
      whole.1 == ResolveLits(c[k + 1..], ts1).1
  {
    assert c[k..][0] == c[k] && c[k..][1..] == c[k + 1..];
  }

  lemma AltsLoopStep(xs: seq<seq<Lit>>, j: nat, ts: seq<char>, done: seq<seq<Ref>>, whole: (seq<seq<Ref>>, seq<char>))
    requires j < |xs|
    requires whole.0 == done + ResolveAlts(xs[j..], ts).0
    requires whole.1 == ResolveAlts(xs[j..], ts).1
    ensures var (a, ts1) := ResolveLits(xs[j], ts);
      whole.0 == (done + [a]) + ResolveAlts(xs[j + 1..], ts1).0 &&
      whole.1 == ResolveAlts(xs[j + 1..], ts1).1
  {
    assert xs[j..][0] == xs[j] && xs[j..][1..] == xs[j + 1..];
  }

  lemma LitsLoopDone(c: seq<Lit>, k: nat, ts: seq<char>, done: seq<Ref>, whole: (seq<Ref>, seq<char>))
    requires k == |c|
    requires whole.0 == done + ResolveLits(c[k..], ts).0
    requires whole.1 == ResolveLits(c[k..], ts).1
    ensures whole == (done, ts)
  {
    assert c[k..] == [];
    assert ResolveLits([], ts) == ([], ts);
    assert done + [] == done;
  }

  lemma AltsLoopDone(xs: seq<seq<Lit>>, j: nat, ts: seq<char>, done: seq<seq<Ref>>, whole: (seq<seq<Ref>>, seq<char>))
    requires j == |xs|
    requires whole.0 == done + ResolveAlts(xs[j..], ts).0
    requires whole.1 == ResolveAlts(xs[j..], ts).1
    ensures whole == (done, ts)
  {
    assert xs[j..] == [];
    assert ResolveAlts([], ts) == ([], ts);
    assert done + [] == done;
  }

  lemma ProdsLoopStep(g: seq<Production>, i: nat, ts: seq<char>, done: seq<EncProd>, whole: (seq<EncProd>, seq<char>))
    requires i < |g|
    requires whole.0 == done + ResolveProds(g[i..], ts).0
    requires whole.1 == ResolveProds(g[i..], ts).1
    ensures var (a, ts1) := ResolveAlts(g[i].alts, ts);
      whole.0 == (done + [EncProd(g[i].lhs, a)]) + ResolveProds(g[i + 1..], ts1).0 &&
      whole.1 == ResolveProds(g[i + 1..], ts1).1
  {
    assert g[i..][0] == g[i] && g[i..][1..] == g[i + 1..];
  }

  lemma ProdsLoopDone(g: seq<Production>, i: nat, ts: seq<char>, done: seq<EncProd>, whole: (seq<EncProd>, seq<char>))
    requires i == |g|
    requires whole.0 == done + ResolveProds(g[i..], ts).0
    requires whole.1 == ResolveProds(g[i..], ts).1
    ensures whole == (done, ts)
  {
    assert g[i..] == [];
    assert ResolveProds([], ts) == ([], ts);
    assert done + [] == done;
  }

  lemma AltTextStep(os0: string, done: seq<Ref>, r: Ref, text: string)
    requires os0 == "(" + ShowLits(done) && text == ShowRef(r)
    ensures os0 + (if done == [] then "" else "+") + text == "(" + ShowLits(done + [r])
  {
    var sep := if done == [] then "" else "+";
    ShowLitsSnoc(done, r);
    Regroup("(", ShowLits(done), sep);
    Regroup("(", ShowLits(done) + sep, text);
  }

  lemma AltsTextStep(head: string, os0: string, done: seq<seq<Ref>>, ra: seq<Ref>, a: string)
    requires os0 == head + ShowAlts(done) && a == ShowAlt(ra)
    ensures os0 + (if done == [] then "" else " & ") + a == head + ShowAlts(done + [ra])
  {
    var sep := if done == [] then "" else " & ";
    ShowAltsSnoc(done, ra);
    Regroup(head, ShowAlts(done), sep);
    Regroup(head, ShowAlts(done) + sep, a);
  }

  /** One alternative: `(` literals joined by `+` `)`, interning terminals. */
  method GenAlt(tt: TerminalTable, c: seq<Lit>) returns (os: string)
    requires tt.Valid()
    modifies tt
    ensures tt.Valid()
    ensures os == ShowAlt(ResolveLits(c, old(tt.ts)).0)
    ensures tt.ts == ResolveLits(c, old(tt.ts)).1
  {
    ghost var whole := ResolveLits(c, tt.ts);
    os := "(";
    var firstL := true;
    ghost var done: seq<Ref> := [];
    var k := 0;
    while k < |c|
      invariant 0 <= k <= |c| && tt.Valid()
      invariant firstL == (k == 0) && |done| == k
      invariant os == "(" + ShowLits(done)
      invariant whole.0 == done + ResolveLits(c[k..], tt.ts).0
      invariant whole.1 == ResolveLits(c[k..], tt.ts).1
    {
      ghost var os0 := os;
      if !firstL { os := os + "+"; } else { firstL := false; }
      ghost var ts0 := tt.ts;
      var r: Ref;
      var text: string;
      match c[k] {
        case NT(n) =>
          text := "nt(" + NatToString(n) + ")";
          r := RNt(n);
        case Nul =>
          text := "nul";
          r := RNul;
        case T(ch) =>
          var idx := tt.Intern(ch);
          text := "t(" + NatToString(idx) + ")";
          r := RT(idx);
      }
      assert os == os0 + (if done == [] then "" else "+");
      os := os + text;
      assert (r, tt.ts) == ResolveLit(c[k], ts0);
      LitsLoopStep(c, k, ts0, done, whole);
      AltTextStep(os0, done, r, text);
      done := done + [r];
      k := k + 1;
    }
    LitsLoopDone(c, k, tt.ts, done, whole);
    os := os + ")";
  }

  /** One `q(nt(lhs), …);` statement: alternatives joined by ` & `. */
  method GenProd(tt: TerminalTable, p: Production) returns (os: string)
    requires tt.Valid()
    modifies tt
    ensures tt.Valid()
    ensures os == ShowProd(EncProd(p.lhs, ResolveAlts(p.alts, old(tt.ts)).0))
    ensures tt.ts == ResolveAlts(p.alts, old(tt.ts)).1
  {
    ghost var whole := ResolveAlts(p.alts, tt.ts);
    ghost var head := "\t\tq(nt(" + NatToString(p.lhs) + "), ";
    os := "\t\tq(nt(" + NatToString(p.lhs) + "), ";
    var firstC := true;
    ghost var done: seq<seq<Ref>> := [];
    var j := 0;
    while j < |p.alts|
      invariant 0 <= j <= |p.alts| && tt.Valid()
      invariant firstC == (j == 0) && |done| == j
      invariant os == head + ShowAlts(done)
      invariant whole.0 == done + ResolveAlts(p.alts[j..], tt.ts).0
      invariant whole.1 == ResolveAlts(p.alts[j..], tt.ts).1
    {
      ghost var os0 := os;
      if !firstC { os := os + " & "; } else { firstC := false; }
      assert os == os0 + (if done == [] then "" else " & ");
      ghost var ts0 := tt.ts;
      var a := GenAlt(tt, p.alts[j]);
      os := os + a;
      ghost var ra := ResolveLits(p.alts[j], ts0).0;
      AltsLoopStep(p.alts, j, ts0, done, whole);
      AltsTextStep(head, os0, done, ra, a);
      done := done + [ra];
      j := j + 1;
    }
    AltsLoopDone(p.alts, j, tt.ts, done, whole);
    os := os + ");\n";
  }

  /** gen_prods (parser_gen.h:96-113): one statement per production, in list
      order; returns the text and leaves the grown table in `tt`. */
  method GenProds(tt: TerminalTable, g: seq<Production>) returns (os: string)
    requires tt.Valid()
    modifies tt
    ensures tt.Valid()
    ensures os == ShowProds(ResolveProds(g, old(tt.ts)).0)
    ensures tt.ts == ResolveProds(g, old(tt.ts)).1
  {
    ghost var whole := ResolveProds(g, tt.ts);
    os := "";
    ghost var done: seq<EncProd> := [];
    var i := 0;
    while i < |g|
      invariant 0 <= i <= |g| && tt.Valid()
      invariant os == ShowProds(done)
      invariant whole.0 == done + ResolveProds(g[i..], tt.ts).0
      invariant whole.1 == ResolveProds(g[i..], tt.ts).1
    {
      ghost var ts0 := tt.ts;
      var q := GenProd(tt, g[i]);
      os := os + q;
      ghost var e := EncProd(g[i].lhs, ResolveAlts(g[i].alts, ts0).0);
      ProdsLoopStep(g, i, ts0, done, whole);
      ShowProdsSnoc(done, e);
      done := done + [e];
      i := i + 1;
    }
    ProdsLoopDone(g, i, tt.ts, done, whole);
  }
}
