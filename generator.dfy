/** generate_parser_cpp (tools/parser_gen/parser_gen.h:33-190): one run
    over a grammar. The productions are encoded first, growing the terminal
    table; then the document is written, with the tables rendered from the
    table as the encoding left it. */
module Generator {
  import opened Text
  import opened Grammar
  import opened Interner
  import opened Escape
  import opened Encoder
  import opened ProdParse
  import opened Tables

  // ------------------------------------------------------ comment_grammar

  /** Every line of the grammar file as a `// ` comment line. */
  function CommentText(lines: seq<string>): (s: string)
  {
    if lines == [] then "" else "// " + lines[0] + "\n" + CommentText(lines[1..])
  }

  lemma CommentTextCons(line: string, lines: seq<string>)
    ensures CommentText([line] + lines) == "// " + line + "\n" + CommentText(lines)
  {
    assert ([line] + lines)[1..] == lines;
  }

  /** comment_grammar (parser_gen.h:116-123) over the lines the file holds. */
  method CommentGrammar(lines: seq<string>) returns (os: string)
    ensures os == CommentText(lines)
  {
    os := "";
    var i := 0;
    while i < |lines|
      invariant i <= |lines|
      invariant os + CommentText(lines[i..]) == CommentText(lines)
    {
      SliceCons(lines, i);
      CommentTextCons(lines[i], lines[i + 1..]);
      Regroup(os, "// " + lines[i] + "\n", CommentText(lines[i + 1..]));
      os := os + ("// " + lines[i] + "\n");
      i := i + 1;
    }
    assert lines[i..] == [];
  }

  /** Reads comment lines back. */
  function DecodeComment(s: string): (r: Option<seq<string>>)
    decreases |s|
  {
    if s == [] then Some([])
    else
      match Expect(s, "// ")
      case None => None
      case Some(t) =>
        var (line, w) := Span(t, '\n');
        match Expect(w, "\n")
        case None => None
        case Some(v) =>
          match DecodeComment(v)
          case None => None
          case Some(lines) => Some([line] + lines)
  }

  lemma CommentTextFront(lines: seq<string>)
    requires lines != []
    ensures CommentText(lines) == "// " + (lines[0] + ("\n" + CommentText(lines[1..])))
  {
    Regroup("// " + lines[0], "\n", CommentText(lines[1..]));
    Regroup("// ", lines[0], "\n" + CommentText(lines[1..]));
  }

  /** One comment line in front of text that reads back. */
  lemma DecodeCommentCons(line: string, v: string, lines: seq<string>)
    requires '\n' !in line && DecodeComment(v) == Some(lines)
    ensures DecodeComment("// " + (line + ("\n" + v))) == Some([line] + lines)
  {
    ExpectConcat("// ", line + ("\n" + v));
    SpanConcat(line, "\n", v);
    ExpectConcat("\n", v);
  }

  /** Lines read by getline hold no line feed, so the comment block gives
      back the file's lines. */
  lemma {:induction false} CommentRoundTrip(lines: seq<string>)
    requires AllAvoid(lines, '\n')
    ensures DecodeComment(CommentText(lines)) == Some(lines)
    decreases |lines|
  {
    if lines != [] {
      CommentTextFront(lines);
      CommentRoundTrip(lines[1..]);
      DecodeCommentCons(lines[0], CommentText(lines[1..]), lines[1..]);
      HeadTail(lines);
    }
  }

  // ------------------------------------------------------------- document

  /** The provenance header (parser_gen.h:125-128). */
  function Header(name: string, comment: string): (s: string)
  {
    "// This file is generated by \n"
    + "//       https://github.com/IDNI/parser/tools/parser_gen\n"
    + "// from the grammar in file: " + name + "\n"
    + "// The content of the file " + name + " is:\n" + comment + "\n"
  }

  /** The includes, the constructor and the public members
      (parser_gen.h:129-152). */
  function PublicPart(name: string, start: nat, cht: string): (s: string)
  {
    "#include <string.h>\n"
    + "#include \"parser.h\"\n"
    + "struct " + name + " {\n"
    + "\t" + name + "() :\n"
    + "\t\tnts(load_nonterminals()), cc(load_cc()),\n"
    + "\t\tg(nts, load_prods(), nt(" + NatToString(start) + "), cc), p(g) { }\n"
    + "\tstd::unique_ptr<typename idni::parser<" + cht + ">::pforest> parse(\n"
    + "\t\tconst " + cht + "* data, size_t size = 0,\n"
    + "\t\t" + cht + " eof = std::char_traits<" + cht + ">::eof())\n"
    + "\t\t\t{ return p.parse(data, size, eof); }\n"
    + "\tstd::unique_ptr<typename idni::parser<" + cht + ">::pforest> parse(\n"
    + "\t\tstd::basic_istream<" + cht + ">& is,\n"
    + "\t\tsize_t size = 0,\n"
    + "\t\t" + cht + " eof = std::char_traits<" + cht + ">::eof())\n"
    + "\t\t\t{ return p.parse(is, size, eof); }\n"
    + "\tbool found() { return p.found(); }\n"
    + "\ttypename idni::parser<" + cht + ">::perror_t get_error()\n"
    + "\t\t{ return p.get_error(); }\n"
  }

  /** The enumeration and the terminal table member (parser_gen.h:153-157). */
  function TablesPart(cht: string, enumText: string, tsText: string): (s: string)
  {
    "   enum struct nonterminal : size_t {\n" + enumText + "   };\n"
    + "private:\n"
    + "\tstd::vector<" + cht + "> ts{\n" + tsText
    + "\t};\n"
  }

  /** The private members and loaders (parser_gen.h:158-188). */
  function LoadersPart(cht: string, namesText: string, ccText: string, ps: string): (s: string)
  {
    "\tidni::nonterminals<" + cht + "> nts{};\n"
    + "\tidni::char_class_fns<" + cht + "> cc;\n"
    + "\tidni::grammar<" + cht + "> g;\n"
    + "\tidni::parser<" + cht + "> p;\n"
    + "\tidni::prods<" + cht + "> t(size_t tid) {\n"
    + "\t\treturn idni::prods<" + cht + ">(ts[tid]);\n"
    + "\t}\n"
    + "\tidni::prods<" + cht + "> nt(size_t ntid) {\n"
    + "\t\treturn idni::prods<" + cht + ">(idni::lit<" + cht + ">(ntid, &nts));\n"
    + "\t}\n"
    + "\tidni::nonterminals<" + cht + "> load_nonterminals() const {\n"
    + "\t\tidni::nonterminals<" + cht + "> nts{};\n"
    + "\t\tfor (const auto& nt : {" + namesText
    + "\t\t}) nts.get(nt);\n"
    + "\t\treturn nts;\n"
    + "\t}\n"
    + "\tidni::char_class_fns<" + cht + "> load_cc() {\n"
    + "\t\treturn idni::predefined_char_classes<" + cht + ">({\n" + ccText
    + "\t\t}, nts);\n"
    + "\t}\n"
    + "\tidni::prods<" + cht + "> load_prods() {\n"
    + "\t\tidni::prods<" + cht + "> q, nul(idni::lit<" + cht + ">{});\n" + ps
    + "\t\treturn q;\n"
    + "\t}\n"
    + "};\n"
  }

  /** The resolved productions and the final terminal table of a run: the
      encoding starts from the seeded table `[NUL]`. */
  function Encoded(g: Grammar): (r: (seq<EncProd>, seq<char>))
  {
    ResolveProds(g.prods, [NUL])
  }

  /** The document a run over a non-empty grammar writes. */
  function Document(name: string, lines: seq<string>, g: Grammar, mode: CharMode): (s: string)
    requires CcFnsInTable(g.nts, g.ccFns)
  {
    var cht := CharType(mode);
    var (rs, fin) := Encoded(g);
    Header(name, CommentText(lines))
    + PublicPart(name, g.start, cht)
    + TablesPart(cht, EnumText(g.nts, mode), TsText(fin, mode))
    + LoadersPart(cht, NamesText(g.nts, mode), CcText(g.nts, g.ccFns), ShowProds(rs))
  }

  /** generate_parser_cpp: `os` is what the stream held before, `out` what
      it holds after. A grammar without productions leaves the stream as it
      was (parser_gen.h:39). Otherwise the productions are encoded first
      (parser_gen.h:124), so the terminal table rendered afterwards
      (parser_gen.h:156) is the one the encoding left. */
  method GenerateParserCpp(os: string, name: string, lines: seq<string>, g: Grammar, mode: CharMode)
    returns (out: string)
    requires CcFnsInTable(g.nts, g.ccFns)
    ensures |g.prods| == 0 ==> out == os
    ensures |g.prods| > 0 ==> out == os + Document(name, lines, g, mode)
  {
    if |g.prods| == 0 {
      return os;
    }
    var cht := CharType(mode);
    var tt := new TerminalTable();
    var ps := GenProds(tt, g.prods);
    var comment := CommentGrammar(lines);
    var enumText := GenNtsEnum(g.nts, mode);
    var tsText := GenTs(tt.ts, mode);
    var namesText := GenNts(g.nts, mode);
    var ccText := GenCcFns(g.nts, g.ccFns);
    out := os + (Header(name, comment)
      + PublicPart(name, g.start, cht)
      + TablesPart(cht, enumText, tsText)
      + LoadersPart(cht, namesText, ccText, ps));
  }

  // ------------------------------------------------ properties of a run

  /** The terminal table a run renders starts with NUL, holds no character
      twice and holds exactly NUL and the grammar's terminals. */
  lemma FinalTable(g: Grammar)
    ensures var fin := Encoded(g).1;
      |fin| > 0 && fin[0] == NUL && NoDup(fin)
      && forall c :: c in fin <==> c == NUL || c in ProdTerms(g.prods)
  {
    var fin := Encoded(g).1;
    ResolveProdsTable(g.prods, [NUL]);
    ExtendKeepsPrefix([NUL], ProdTerms(g.prods));
    ExtendKeepsNoDup([NUL], ProdTerms(g.prods));
    forall c ensures c in fin <==> c == NUL || c in ProdTerms(g.prods) {
      ExtendElements([NUL], ProdTerms(g.prods), c);
    }
  }

  /** The table lists the terminals in the order the encoding first meets
      them, after the NUL seed. */
  lemma FinalTableOrder(g: Grammar)
    ensures var fin := Encoded(g).1;
      forall i, j :: 0 <= i < j < |fin| ==>
        Find([NUL] + ProdTerms(g.prods), fin[i]) < Find([NUL] + ProdTerms(g.prods), fin[j])
  {
    ResolveProdsTable(g.prods, [NUL]);
    ExtendFirstUseOrder([NUL], ProdTerms(g.prods));
  }

  /** The two texts agree: reading the production statements and the
      terminal table back from what the run writes gives references that
      are in range of the table and that, looked up in it, denote the
      grammar's productions exactly. */
  lemma RenderedTextsAgree(g: Grammar, mode: CharMode)
    ensures var (rs, fin) := Encoded(g);
      ParseProds(ShowProds(rs)) == Some(rs)
      && DecodeTs(TsText(fin, mode), mode) == Some(fin)
      && ProdsIn(rs, |fin|) && DenoteProds(rs, fin) == g.prods
  {
    var (rs, fin) := Encoded(g);
    ParseProdsShow(rs);
    TsTextRoundTrip(fin, mode);
    IndexConsistency(g.prods, [NUL]);
  }

  /** The grammar `start => 'a' 'b' | null`. */
  const SmallGrammar := Grammar(0, ["start"], [Production(0, [[T('a'), T('b')], [Nul]])], [])

  /** Encoding it interns a and b after the NUL seed, and the statement
      refers to entries 1 and 2. */
  lemma SmallGrammarEncoded()
    ensures Encoded(SmallGrammar) == ([EncProd(0, [[RT(1), RT(2)], [RNul]])], [NUL, 'a', 'b'])
  {
    var l := [T('a'), T('b')];
    var ts1 := [NUL, 'a'];
    var ts2 := [NUL, 'a', 'b'];
    assert ResolveLits(l, [NUL]) == ([RT(1), RT(2)], ts2) by {
      assert 'a' !in [NUL] && [NUL] + ['a'] == ts1;
      assert 'b' !in ts1 && ts1 + ['b'] == ts2;
      assert ResolveLit(T('a'), [NUL]) == (RT(1), ts1);
      assert ResolveLit(T('b'), ts1) == (RT(2), ts2);
      assert l[0] == T('a') && l[1..] == [T('b')] && l[1..][0] == T('b') && l[1..][1..] == [];
      assert ResolveLits(l[1..][1..], ts2) == ([], ts2);
      assert [RT(2)] + [] == [RT(2)];
      assert ResolveLits(l[1..], ts1) == ([RT(2)], ts2);
      assert [RT(1)] + [RT(2)] == [RT(1), RT(2)];
    }
    assert ResolveLits([Nul], ts2) == ([RNul], ts2) by {
      assert [Nul][0] == Nul && [Nul][1..] == [];
      assert ResolveLits([Nul][1..], ts2) == ([], ts2);
      assert [RNul] + [] == [RNul];
    }
    var xs := [l, [Nul]];
    assert ResolveAlts(xs, [NUL]) == ([[RT(1), RT(2)], [RNul]], ts2) by {
      assert xs[0] == l && xs[1..] == [[Nul]] && xs[1..][0] == [Nul] && xs[1..][1..] == [];
      assert ResolveAlts(xs[1..][1..], ts2) == ([], ts2);
      assert [[RNul]] + [] == [[RNul]];
      assert ResolveAlts(xs[1..], ts2) == ([[RNul]], ts2);
      assert [[RT(1), RT(2)]] + [[RNul]] == [[RT(1), RT(2)], [RNul]];
    }
    var g := SmallGrammar;
    assert g.prods[0].alts == xs;
    assert g.prods[1..] == [] && ResolveProds(g.prods[1..], ts2) == ([], ts2);
    assert [EncProd(0, [[RT(1), RT(2)], [RNul]])] + [] == [EncProd(0, [[RT(1), RT(2)], [RNul]])];
  }

  // The literal pieces the renderers put together, joined.
  lemma LitsPieces()
    ensures "t(" + "1" + ")" + ("+" + ("t(" + "2" + ")") + "") == "t(1)+t(2)"
  {
  }

  lemma AltsPieces()
    ensures "(" + "t(1)+t(2)" + ")" + (" & " + ("(" + ("nul" + "") + ")") + "") == "(t(1)+t(2)) & (nul)"
  {
  }

  lemma StatementPieces()
    ensures "\t\tq(nt(" + "0" + "), " + "(t(1)+t(2)) & (nul)" + ");\n" + "" == "\t\tq(nt(0), (t(1)+t(2)) & (nul));\n"
  {
  }

  lemma TablePieces()
    ensures "\t\t" + (("" + ("" + "'" + "\\0" + "'") + ", ") + (("" + ("" + "'" + "a" + "'") + ", ")
      + (("" + ("" + "'" + "b" + "'") + ", ") + ""))) + "\n" == "\t\t'\\0', 'a', 'b', \n"
  {
  }

  /** The statement gen_prods writes for it. */
  lemma SmallGrammarLits()
    ensures ShowLits([RT(1), RT(2)]) == "t(1)+t(2)"
  {
    var rs := [RT(1), RT(2)];
    assert NatToString(1) == "1" && NatToString(2) == "2";
    assert rs[0] == RT(1) && rs[1..] == [RT(2)] && rs[1..][0] == RT(2) && rs[1..][1..] == [];
    LitsPieces();
  }

  lemma SmallGrammarAlts()
    ensures ShowAlts([[RT(1), RT(2)], [RNul]]) == "(t(1)+t(2)) & (nul)"
  {
    var xs := [[RT(1), RT(2)], [RNul]];
    SmallGrammarLits();
    assert xs[0] == [RT(1), RT(2)] && xs[1..] == [[RNul]] && xs[1..][0] == [RNul] && xs[1..][1..] == [];
    assert [RNul][1..] == [];
    AltsPieces();
  }

  lemma SmallGrammarStatement()
    ensures ShowProds([EncProd(0, [[RT(1), RT(2)], [RNul]])]) == "\t\tq(nt(0), (t(1)+t(2)) & (nul));\n"
  {
    var p := EncProd(0, [[RT(1), RT(2)], [RNul]]);
    SmallGrammarAlts();
    assert NatToString(0) == "0";
    assert [p][0] == p && [p][1..] == [];
    StatementPieces();
  }

  /** The table gen_ts writes for it, NUL written as `'\0'`. */
  lemma SmallGrammarTable()
    ensures TsText([NUL, 'a', 'b'], Narrow) == "\t\t'\\0', 'a', 'b', \n"
  {
    var ts := [NUL, 'a', 'b'];
    assert TsBreak(0) == "" && TsBreak(1) == "" && TsBreak(2) == "";
    assert EscapeChar(NUL) == "\\0" && EscapeChar('a') == "a" && EscapeChar('b') == "b";
    assert ts[0] == NUL && ts[1] == 'a' && ts[2] == 'b';
    assert TsEntries(ts, 3, Narrow) == "";
    assert TsEntries(ts, 2, Narrow) == TsEntry(2, 'b', Narrow) + "";
    assert TsEntries(ts, 1, Narrow) == TsEntry(1, 'a', Narrow) + TsEntries(ts, 2, Narrow);
    assert TsEntries(ts, 0, Narrow) == TsEntry(0, NUL, Narrow) + TsEntries(ts, 1, Narrow);
    TablePieces();
  }
}
