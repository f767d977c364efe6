/** A reader for the statements gen_prods writes (tools/parser_gen/parser_gen.h:96-113):
      statement := TAB TAB "q(nt(" number "), " [ alt { " & " alt } ] ");" LF
      alt       := "(" [ ref { "+" ref } ] ")"
      ref       := "nt(" number ")" | "nul" | "t(" number ")"
    The round-trip lemmas show that the text determines the resolved
    productions, read left to right. */
module ProdParse {
  import opened Text
  import opened Encoder

  /** A number followed by `)`. */
  function ParseIndex(s: string): (r: Option<(nat, string)>)
    ensures r.Some? ==> |r.value.1| < |s|
  {
    match ParseNat(s)
    case None => None
    case Some((n, t)) =>
      match Expect(t, ")")
      case None => None
      case Some(u) => Some((n, u))
  }

  lemma ParseIndexShow(n: nat, rest: string)
    ensures ParseIndex(NatToString(n) + (")" + rest)) == Some((n, rest))
  {
    ParseNatToString(n, ")" + rest);
    ExpectConcat(")", rest);
  }

  function ParseRef(s: string): (r: Option<(Ref, string)>)
    ensures r.Some? ==> |r.value.1| < |s|
  {
    if StartsWith(s, "nt(") then
      match ParseIndex(s[3..])
      case None => None
      case Some((n, t)) => Some((RNt(n), t))
    else if StartsWith(s, "nul") then Some((RNul, s[3..]))
    else if StartsWith(s, "t(") then
      match ParseIndex(s[2..])
      case None => None
      case Some((k, t)) => Some((RT(k), t))
    else None
  }

  lemma ParseRefShowNt(n: nat, rest: string)
    ensures ParseRef(ShowRef(RNt(n)) + rest) == Some((RNt(n), rest))
  {
    Regroup("nt(" + NatToString(n), ")", rest);
    Regroup("nt(", NatToString(n), ")" + rest);
    StartsWithConcat("nt(", NatToString(n) + (")" + rest));
    ParseIndexShow(n, rest);
  }

  lemma ParseRefShowNul(rest: string)
    ensures ParseRef(ShowRef(RNul) + rest) == Some((RNul, rest))
  {
    NotStartsWith("nul", rest, "nt(", 1);
    StartsWithConcat("nul", rest);
  }

  lemma ParseRefShowT(k: nat, rest: string)
    ensures ParseRef(ShowRef(RT(k)) + rest) == Some((RT(k), rest))
  {
    var x := NatToString(k) + (")" + rest);
    Regroup("t(" + NatToString(k), ")", rest);
    Regroup("t(", NatToString(k), ")" + rest);
    NotStartsWith("t(", x, "nt(", 0);
    NotStartsWith("t(", x, "nul", 0);
    StartsWithConcat("t(", x);
    ParseIndexShow(k, rest);
  }

  /** Every reference is read back from its text, whatever follows it. */
  lemma ParseRefShow(r: Ref, rest: string)
    ensures ParseRef(ShowRef(r) + rest) == Some((r, rest))
  {
    match r
    case RNt(n) => ParseRefShowNt(n, rest);
    case RNul => ParseRefShowNul(rest);
    case RT(k) => ParseRefShowT(k, rest);
  }

  /** No reference starts with `)`. */
  lemma ParseRefCloseParen(rest: string)
    ensures ParseRef(")" + rest) == None
  {
    NotStartsWith(")", rest, "nt(", 0);
    NotStartsWith(")", rest, "nul", 0);
    NotStartsWith(")", rest, "t(", 0);
  }

  function ParsePlusTail(s: string): (r: Option<(seq<Ref>, string)>)
    ensures r.Some? ==> |r.value.1| <= |s|
    decreases |s|
  {
    if StartsWith(s, "+") then
      match ParseRef(s[1..])
      case None => None
      case Some((x, t)) =>
        match ParsePlusTail(t)
        case None => None
        case Some((xs, u)) => Some(([x] + xs, u))
    else Some(([], s))
  }

  lemma PlusTailFront(rs: seq<Ref>, rest: string)
    requires rs != []
    ensures PlusTail(rs) + rest == "+" + (ShowRef(rs[0]) + (PlusTail(rs[1..]) + rest))
  {
    Regroup("+" + ShowRef(rs[0]), PlusTail(rs[1..]), rest);
    Regroup("+", ShowRef(rs[0]), PlusTail(rs[1..]) + rest);
  }

  lemma ParsePlusTailCons(s: string, x: Ref, t: string, xs: seq<Ref>, u: string)
    requires StartsWith(s, "+") && ParseRef(s[1..]) == Some((x, t)) && ParsePlusTail(t) == Some((xs, u))
    ensures ParsePlusTail(s) == Some(([x] + xs, u))
  {
  }

  lemma {:induction false} ParsePlusTailShow(rs: seq<Ref>, rest: string)
    requires !StartsWith(rest, "+")
    ensures ParsePlusTail(PlusTail(rs) + rest) == Some((rs, rest))
    decreases |rs|
  {
    if rs == [] {
      assert PlusTail(rs) + rest == rest;
    } else {
      var tail := PlusTail(rs[1..]) + rest;
      PlusTailFront(rs, rest);
      StartsWithConcat("+", ShowRef(rs[0]) + tail);
      ParseRefShow(rs[0], tail);
      ParsePlusTailShow(rs[1..], rest);
      ParsePlusTailCons(PlusTail(rs) + rest, rs[0], tail, rs[1..], rest);
      HeadTail(rs);
    }
  }

  function ParseLits(s: string): (r: Option<(seq<Ref>, string)>)
    ensures r.Some? ==> |r.value.1| <= |s|
  {
    match ParseRef(s)
    case None => Some(([], s))
    case Some((x, t)) =>
      match ParsePlusTail(t)
      case None => None
      case Some((xs, u)) => Some(([x] + xs, u))
  }

  lemma ParseLitsCons(s: string, x: Ref, t: string, xs: seq<Ref>, u: string)
    requires ParseRef(s) == Some((x, t)) && ParsePlusTail(t) == Some((xs, u))
    ensures ParseLits(s) == Some(([x] + xs, u))
  {
  }

  lemma ParseLitsShow(rs: seq<Ref>, rest: string)
    ensures ParseLits(ShowLits(rs) + (")" + rest)) == Some((rs, ")" + rest))
  {
    var close := ")" + rest;
    if rs == [] {
      assert ShowLits(rs) + close == close;
      ParseRefCloseParen(rest);
    } else {
      var tail := PlusTail(rs[1..]) + close;
      Regroup(ShowRef(rs[0]), PlusTail(rs[1..]), close);
      ParseRefShow(rs[0], tail);
      NotStartsWith(")", rest, "+", 0);
      ParsePlusTailShow(rs[1..], close);
      ParseLitsCons(ShowLits(rs) + close, rs[0], tail, rs[1..], close);
      HeadTail(rs);
    }
  }

  function ParseAlt(s: string): (r: Option<(seq<Ref>, string)>)
    ensures r.Some? ==> |r.value.1| < |s|
  {
    match Expect(s, "(")
    case None => None
    case Some(t) =>
      match ParseLits(t)
      case None => None
      case Some((xs, u)) =>
        match Expect(u, ")")
        case None => None
        case Some(v) => Some((xs, v))
  }

  lemma ParseAltCons(s: string, t: string, xs: seq<Ref>, u: string, v: string)
    requires Expect(s, "(") == Some(t) && ParseLits(t) == Some((xs, u)) && Expect(u, ")") == Some(v)
    ensures ParseAlt(s) == Some((xs, v))
  {
  }

  lemma ParseAltShow(rs: seq<Ref>, rest: string)
    ensures ParseAlt(ShowAlt(rs) + rest) == Some((rs, rest))
  {
    var t := ShowLits(rs) + (")" + rest);
    Regroup("(" + ShowLits(rs), ")", rest);
    Regroup("(", ShowLits(rs), ")" + rest);
    ExpectConcat("(", t);
    ParseLitsShow(rs, rest);
    ExpectConcat(")", rest);
    ParseAltCons(ShowAlt(rs) + rest, t, rs, ")" + rest, rest);
  }

  function ParseAmpTail(s: string): (r: Option<(seq<seq<Ref>>, string)>)
    ensures r.Some? ==> |r.value.1| <= |s|
    decreases |s|
  {
    if StartsWith(s, " & ") then
      match ParseAlt(s[3..])
      case None => None
      case Some((x, t)) =>
        match ParseAmpTail(t)
        case None => None
        case Some((xs, u)) => Some(([x] + xs, u))
    else Some(([], s))
  }

  lemma AmpTailFront(xs: seq<seq<Ref>>, rest: string)
    requires xs != []
    ensures AmpTail(xs) + rest == " & " + (ShowAlt(xs[0]) + (AmpTail(xs[1..]) + rest))
  {
    Regroup(" & " + ShowAlt(xs[0]), AmpTail(xs[1..]), rest);
    Regroup(" & ", ShowAlt(xs[0]), AmpTail(xs[1..]) + rest);
  }

  lemma ParseAmpTailCons(s: string, x: seq<Ref>, t: string, xs: seq<seq<Ref>>, u: string)
    requires StartsWith(s, " & ") && ParseAlt(s[3..]) == Some((x, t)) && ParseAmpTail(t) == Some((xs, u))
    ensures ParseAmpTail(s) == Some(([x] + xs, u))
  {
  }

  lemma {:induction false} ParseAmpTailShow(xs: seq<seq<Ref>>, rest: string)
    requires !StartsWith(rest, " & ")
    ensures ParseAmpTail(AmpTail(xs) + rest) == Some((xs, rest))
    decreases |xs|
  {
    if xs == [] {
      assert AmpTail(xs) + rest == rest;
    } else {
      var tail := AmpTail(xs[1..]) + rest;
      AmpTailFront(xs, rest);
      StartsWithConcat(" & ", ShowAlt(xs[0]) + tail);
      ParseAltShow(xs[0], tail);
      ParseAmpTailShow(xs[1..], rest);
      ParseAmpTailCons(AmpTail(xs) + rest, xs[0], tail, xs[1..], rest);
      HeadTail(xs);
    }
  }

  function ParseAlts(s: string): (r: Option<(seq<seq<Ref>>, string)>)
    ensures r.Some? ==> |r.value.1| <= |s|
  {
    match ParseAlt(s)
    case None => Some(([], s))
    case Some((x, t)) =>
      match ParseAmpTail(t)
      case None => None
      case Some((xs, u)) => Some(([x] + xs, u))
  }

  lemma ParseAltsCons(s: string, x: seq<Ref>, t: string, xs: seq<seq<Ref>>, u: string)
    requires ParseAlt(s) == Some((x, t)) && ParseAmpTail(t) == Some((xs, u))
    ensures ParseAlts(s) == Some(([x] + xs, u))
  {
  }

  lemma ParseAltsShow(xs: seq<seq<Ref>>, rest: string)
    ensures ParseAlts(ShowAlts(xs) + (");\n" + rest)) == Some((xs, ");\n" + rest))
  {
    var close := ");\n" + rest;
    if xs == [] {
      assert ShowAlts(xs) + close == close;
      NotStartsWith(");\n", rest, "(", 0);
    } else {
      var tail := AmpTail(xs[1..]) + close;
      Regroup(ShowAlt(xs[0]), AmpTail(xs[1..]), close);
      ParseAltShow(xs[0], tail);
      NotStartsWith(");\n", rest, " & ", 0);
      ParseAmpTailShow(xs[1..], close);
      ParseAltsCons(ShowAlts(xs) + close, xs[0], tail, xs[1..], close);
      HeadTail(xs);
    }
  }

  function ParseProd(s: string): (r: Option<(EncProd, string)>)
    ensures r.Some? ==> |r.value.1| < |s|
  {
    match Expect(s, "\t\tq(nt(")
    case None => None
    case Some(t) =>
      match ParseNat(t)
      case None => None
      case Some((lhs, u)) =>
        match Expect(u, "), ")
        case None => None
        case Some(v) =>
          match ParseAlts(v)
          case None => None
          case Some((xs, w)) =>
            match Expect(w, ");\n")
            case None => None
            case Some(z) => Some((EncProd(lhs, xs), z))
  }

  lemma ShowProdFront(p: EncProd, rest: string)
    ensures ShowProd(p) + rest
         == "\t\tq(nt(" + (NatToString(p.lhs) + ("), " + (ShowAlts(p.alts) + (");\n" + rest))))
  {
    var n := NatToString(p.lhs);
    var a := ShowAlts(p.alts);
    Regroup("\t\tq(nt(" + n + "), " + a, ");\n", rest);
    Regroup("\t\tq(nt(" + n + "), ", a, ");\n" + rest);
    Regroup("\t\tq(nt(" + n, "), ", a + (");\n" + rest));
    Regroup("\t\tq(nt(", n, "), " + (a + (");\n" + rest)));
  }

  lemma ParseProdCons(s: string, t: string, lhs: nat, u: string, v: string, xs: seq<seq<Ref>>, w: string, z: string)
    requires Expect(s, "\t\tq(nt(") == Some(t) && ParseNat(t) == Some((lhs, u)) && Expect(u, "), ") == Some(v)
    requires ParseAlts(v) == Some((xs, w)) && Expect(w, ");\n") == Some(z)
    ensures ParseProd(s) == Some((EncProd(lhs, xs), z))
  {
  }

  lemma ParseProdShow(p: EncProd, rest: string)
    ensures ParseProd(ShowProd(p) + rest) == Some((p, rest))
  {
    var n := NatToString(p.lhs);
    var w := ");\n" + rest;
    var v := ShowAlts(p.alts) + w;
    var u := "), " + v;
    ShowProdFront(p, rest);
    ExpectConcat("\t\tq(nt(", n + u);
    ParseNatToString(p.lhs, u);
    ExpectConcat("), ", v);
    ParseAltsShow(p.alts, rest);
    ExpectConcat(");\n", rest);
    ParseProdCons(ShowProd(p) + rest, n + u, p.lhs, u, v, p.alts, w, rest);
  }

  /** Reads a whole production block; fails unless all of it is used. */
  function ParseProds(s: string): (r: Option<seq<EncProd>>)
    decreases |s|
  {
    if s == [] then Some([])
    else
      match ParseProd(s)
      case None => None
      case Some((p, t)) =>
        match ParseProds(t)
        case None => None
        case Some(ps) => Some([p] + ps)
  }

  lemma ParseProdsCons(s: string, p: EncProd, t: string, ps: seq<EncProd>)
    requires s != [] && ParseProd(s) == Some((p, t)) && ParseProds(t) == Some(ps)
    ensures ParseProds(s) == Some([p] + ps)
  {
  }

  /** The production text is a faithful serialisation: reading it back
      gives the resolved productions, in order. */
  lemma {:induction false} ParseProdsShow(ps: seq<EncProd>)
    ensures ParseProds(ShowProds(ps)) == Some(ps)
    decreases |ps|
  {
    if ps != [] {
      var t := ShowProds(ps[1..]);
      ParseProdShow(ps[0], t);
      ParseProdsShow(ps[1..]);
      assert ShowProds(ps) != [] by { assert |ShowProd(ps[0])| > 0; }
      ParseProdsCons(ShowProds(ps), ps[0], t, ps[1..]);
      HeadTail(ps);
    }
  }
}
