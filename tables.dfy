/** The table renderers of generate_parser_cpp
    (tools/parser_gen/parser_gen.h:44-87): the terminal table `ts`, the
    nonterminal enumerators, the nonterminal name list and the
    character-class name list, each written as a loop over a string
    stream, together with readers that recover the tables from the text. */
module Tables {
  import opened Text
  import opened Grammar
  import opened Escape

  // ---------------------------------------------------------------- gen_ts

  /** The counter of gen_ts reaches 10 on entries 9, 19, 29, …, and a line
      break goes in front of each of them. */
  function TsBreak(i: nat): (s: string)
  {
    if i % 10 == 9 then "\n\t\t" else ""
  }

  function TsEntry(i: nat, c: char, mode: CharMode): (s: string)
  {
    TsBreak(i) + CharLiteral(c, mode) + ", "
  }

  /** The entries of `ts` from index `i` on. */
  function TsEntries(ts: seq<char>, i: nat, mode: CharMode): (s: string)
    decreases |ts| - i
  {
    if i >= |ts| then "" else TsEntry(i, ts[i], mode) + TsEntries(ts, i + 1, mode)
  }

  /** The text gen_ts returns for the table `ts`. */
  function TsText(ts: seq<char>, mode: CharMode): (s: string)
  {
    "\t\t" + TsEntries(ts, 0, mode) + "\n"
  }

  /** The counter `n` of gen_ts wraps at 10 exactly when the entry index
      is 9 modulo 10, and stays equal to the number of entries modulo 10. */
  lemma CounterStep(i: nat, n: nat)
    requires n == i % 10
    ensures (n + 1 == 10) == (i % 10 == 9)
    ensures (if n + 1 == 10 then 0 else n + 1) == (i + 1) % 10
  {
  }

  lemma TsLoopStep(ts: seq<char>, mode: CharMode, i: nat, os: string)
    requires i < |ts|
    ensures (os + TsEntry(i, ts[i], mode)) + TsEntries(ts, i + 1, mode) == os + TsEntries(ts, i, mode)
  {
    Regroup(os, TsEntry(i, ts[i], mode), TsEntries(ts, i + 1, mode));
  }

  /** gen_ts (parser_gen.h:44-61), with its counter `n`. */
  method GenTs(ts: seq<char>, mode: CharMode) returns (os: string)
    ensures os == TsText(ts, mode)
  {
    os := "\t\t";
    var n := 0;
    var i := 0;
    while i < |ts|
      invariant i <= |ts| && n == i % 10
      invariant os + TsEntries(ts, i, mode) == "\t\t" + TsEntries(ts, 0, mode)
    {
      CounterStep(i, n);
      TsLoopStep(ts, mode, i, os);
      var brk := "";
      n := n + 1;
      if n == 10 {
        n := 0;
        brk := "\n\t\t";
      }
      os := os + (brk + CharLiteral(ts[i], mode) + ", ");
      i := i + 1;
    }
    os := os + "\n";
  }

  /** Reads the entries from index `i` on, each with the line break its
      index calls for, up to the final line feed. */
  function DecodeTsEntries(s: string, mode: CharMode, i: nat): (r: Option<seq<char>>)
    decreases |s|
  {
    if s == "\n" then Some([])
    else
      match Expect(s, TsBreak(i))
      case None => None
      case Some(t) =>
        match DecodeLiteral(t, mode)
        case None => None
        case Some((c, u)) =>
          match Expect(u, ", ")
          case None => None
          case Some(v) =>
            match DecodeTsEntries(v, mode, i + 1)
            case None => None
            case Some(cs) => Some([c] + cs)
  }

  function DecodeTs(s: string, mode: CharMode): (r: Option<seq<char>>)
  {
    match Expect(s, "\t\t")
    case None => None
    case Some(t) => DecodeTsEntries(t, mode, 0)
  }

  lemma TsEntriesFront(ts: seq<char>, mode: CharMode, i: nat)
    requires i < |ts|
    ensures TsEntries(ts, i, mode) + "\n"
         == TsBreak(i) + (CharLiteral(ts[i], mode) + (", " + (TsEntries(ts, i + 1, mode) + "\n")))
  {
    var lit := CharLiteral(ts[i], mode);
    var v := TsEntries(ts, i + 1, mode) + "\n";
    calc {
      TsEntries(ts, i, mode) + "\n";
      (TsBreak(i) + lit + ", " + TsEntries(ts, i + 1, mode)) + "\n";
      { Regroup(TsBreak(i) + lit + ", ", TsEntries(ts, i + 1, mode), "\n"); }
      (TsBreak(i) + lit + ", ") + v;
      { Regroup(TsBreak(i) + lit, ", ", v); Regroup(TsBreak(i), lit, ", " + v); }
      TsBreak(i) + (lit + (", " + v));
    }
  }

  /** One entry in front of text that reads back. */
  lemma DecodeTsEntriesCons(c: char, mode: CharMode, i: nat, v: string, cs: seq<char>)
    requires DecodeTsEntries(v, mode, i + 1) == Some(cs)
    ensures DecodeTsEntries(TsBreak(i) + (CharLiteral(c, mode) + (", " + v)), mode, i) == Some([c] + cs)
  {
    var lit := CharLiteral(c, mode);
    var w := ", " + v;
    var s := TsBreak(i) + (lit + w);
    assert s != "\n" by { assert |s| >= |lit| + 2 && |lit| >= 3; }
    ExpectConcat(TsBreak(i), lit + w);
    DecodeLiteralRoundTrip(c, mode, w);
    ExpectConcat(", ", v);
  }

  /** If the entries after `i` read back, so do those from `i`. */
  lemma DecodeTsEntriesStep(ts: seq<char>, mode: CharMode, i: nat)
    requires i < |ts|
    requires DecodeTsEntries(TsEntries(ts, i + 1, mode) + "\n", mode, i + 1) == Some(ts[i + 1..])
    ensures DecodeTsEntries(TsEntries(ts, i, mode) + "\n", mode, i) == Some(ts[i..])
  {
    TsEntriesFront(ts, mode, i);
    DecodeTsEntriesCons(ts[i], mode, i, TsEntries(ts, i + 1, mode) + "\n", ts[i + 1..]);
    SliceCons(ts, i);
  }

  /** Past the last entry only the final line feed is left. */
  lemma DecodeTsEntriesEnd(ts: seq<char>, mode: CharMode)
    ensures DecodeTsEntries(TsEntries(ts, |ts|, mode) + "\n", mode, |ts|) == Some(ts[|ts|..])
  {
    assert TsEntries(ts, |ts|, mode) == "";
    assert ts[|ts|..] == [];
  }

  lemma {:induction false} DecodeTsEntriesShow(ts: seq<char>, mode: CharMode, i: nat)
    requires i <= |ts|
    ensures DecodeTsEntries(TsEntries(ts, i, mode) + "\n", mode, i) == Some(ts[i..])
    decreases |ts| - i
  {
    if i == |ts| {
      DecodeTsEntriesEnd(ts, mode);
    } else {
      DecodeTsEntriesShow(ts, mode, i + 1);
      DecodeTsEntriesStep(ts, mode, i);
    }
  }

  /** The terminal table text holds exactly the entries of `ts`, in table
      order, with the line breaks exactly where the counter puts them: the
      text determines the table. */
  lemma TsTextRoundTrip(ts: seq<char>, mode: CharMode)
    ensures DecodeTs(TsText(ts, mode), mode) == Some(ts)
  {
    Regroup("\t\t", TsEntries(ts, 0, mode), "\n");
    ExpectConcat("\t\t", TsEntries(ts, 0, mode) + "\n");
    DecodeTsEntriesShow(ts, mode, 0);
    assert ts[0..] == ts;
  }

  // ------------------------------------------- gen_nts_enum_cte and gen_nts

  /** Both nonterminal lists break the line in front of entries 0, 10, 20, … */
  function NtBreak(n: nat): (s: string)
  {
    if n % 10 == 0 then "\n\t\t\t" else ""
  }

  /** The entries of a nonterminal list from index `n` on: each name between
      `open` and `close`. */
  function NtEntries(nts: seq<string>, n: nat, open: string, close: string): (s: string)
    decreases |nts| - n
  {
    if n >= |nts| then ""
    else NtBreak(n) + open + nts[n] + close + NtEntries(nts, n + 1, open, close)
  }

  /** The text gen_nts_enum_cte returns: the names as enumerators. */
  function EnumText(nts: seq<string>, mode: CharMode): (s: string)
  {
    NtEntries(nts, 0, Prefix(mode), ", ") + "\n"
  }

  /** The text gen_nts returns: the names as string literals. */
  function NamesText(nts: seq<string>, mode: CharMode): (s: string)
  {
    NtEntries(nts, 0, Prefix(mode) + "\"", "\", ") + "\n"
  }

  lemma NtEntriesStep(nts: seq<string>, n: nat, open: string, close: string, os: string)
    requires n < |nts|
    ensures os + NtEntries(nts, n, open, close)
         == (os + (NtBreak(n) + open + nts[n] + close)) + NtEntries(nts, n + 1, open, close)
  {
  }

  /** gen_nts_enum_cte (parser_gen.h:62-70). */
  method GenNtsEnum(nts: seq<string>, mode: CharMode) returns (os: string)
    ensures os == EnumText(nts, mode)
  {
    var u := Prefix(mode);
    os := "";
    var n := 0;
    while n != |nts|
      invariant n <= |nts|
      invariant os + NtEntries(nts, n, u, ", ") == NtEntries(nts, 0, u, ", ")
    {
      NtEntriesStep(nts, n, u, ", ", os);
      os := os + ((if n % 10 == 0 then "\n\t\t\t" else "") + u + nts[n] + ", ");
      n := n + 1;
    }
    os := os + "\n";
  }

  /** gen_nts (parser_gen.h:71-79). */
  method GenNts(nts: seq<string>, mode: CharMode) returns (os: string)
    ensures os == NamesText(nts, mode)
  {
    var open := Prefix(mode) + "\"";
    os := "";
    var n := 0;
    while n != |nts|
      invariant n <= |nts|
      invariant os + NtEntries(nts, n, open, "\", ") == NtEntries(nts, 0, open, "\", ")
    {
      NtEntriesStep(nts, n, open, "\", ", os);
      os := os + ((if n % 10 == 0 then "\n\t\t\t" else "") + open + nts[n] + "\", ");
      n := n + 1;
    }
    os := os + "\n";
  }

  lemma NtEntriesFront(nts: seq<string>, n: nat, open: string, close: string)
    requires n < |nts|
    ensures NtEntries(nts, n, open, close) + "\n"
         == (NtBreak(n) + open) + (nts[n] + (close + (NtEntries(nts, n + 1, open, close) + "\n")))
  {
    var v := NtEntries(nts, n + 1, open, close) + "\n";
    var head := NtBreak(n) + open + nts[n] + close;
    Regroup(head, NtEntries(nts, n + 1, open, close), "\n");
    Regroup(NtBreak(n) + open + nts[n], close, v);
    Regroup(NtBreak(n) + open, nts[n], close + v);
  }

  /** Reads the enumerator list from index `n` on: each name follows its
      line break and the prefix `u`, and ends at the next comma. */
  function DecodeEnum(s: string, n: nat, u: string): (r: Option<seq<string>>)
    decreases |s|
  {
    if s == "\n" then Some([])
    else
      match Expect(s, NtBreak(n) + u)
      case None => None
      case Some(t) =>
        var (name, w) := Span(t, ',');
        match Expect(w, ", ")
        case None => None
        case Some(v) =>
          match DecodeEnum(v, n + 1, u)
          case None => None
          case Some(names) => Some([name] + names)
  }

  /** One enumerator in front of text that reads back. */
  lemma DecodeEnumCons(name: string, n: nat, u: string, v: string, names: seq<string>)
    requires ',' !in name && DecodeEnum(v, n + 1, u) == Some(names)
    ensures DecodeEnum((NtBreak(n) + u) + (name + (", " + v)), n, u) == Some([name] + names)
  {
    var s := (NtBreak(n) + u) + (name + (", " + v));
    assert s != "\n" by { assert |s| >= 3; }
    ExpectConcat(NtBreak(n) + u, name + (", " + v));
    SpanConcat(name, ", ", v);
    ExpectConcat(", ", v);
  }

  lemma DecodeEnumStep(nts: seq<string>, n: nat, u: string)
    requires n < |nts| && AllAvoid(nts, ',')
    requires DecodeEnum(NtEntries(nts, n + 1, u, ", ") + "\n", n + 1, u) == Some(nts[n + 1..])
    ensures DecodeEnum(NtEntries(nts, n, u, ", ") + "\n", n, u) == Some(nts[n..])
  {
    NtEntriesFront(nts, n, u, ", ");
    DecodeEnumCons(nts[n], n, u, NtEntries(nts, n + 1, u, ", ") + "\n", nts[n + 1..]);
    SliceCons(nts, n);
  }

  lemma DecodeEnumEnd(nts: seq<string>, u: string)
    ensures DecodeEnum(NtEntries(nts, |nts|, u, ", ") + "\n", |nts|, u) == Some(nts[|nts|..])
  {
    assert NtEntries(nts, |nts|, u, ", ") == "";
    assert nts[|nts|..] == [];
  }

  lemma {:induction false} DecodeEnumShow(nts: seq<string>, n: nat, u: string)
    requires n <= |nts| && AllAvoid(nts, ',')
    ensures DecodeEnum(NtEntries(nts, n, u, ", ") + "\n", n, u) == Some(nts[n..])
    decreases |nts| - n
  {
    if n == |nts| {
      DecodeEnumEnd(nts, u);
    } else {
      DecodeEnumShow(nts, n + 1, u);
      DecodeEnumStep(nts, n, u);
    }
  }

  /** The enumerator list holds exactly one entry per nonterminal, in table
      order, with line breaks in front of entries 0, 10, 20, … */
  lemma EnumTextRoundTrip(nts: seq<string>, mode: CharMode)
    requires AllAvoid(nts, ',')
    ensures DecodeEnum(EnumText(nts, mode), 0, Prefix(mode)) == Some(nts)
  {
    DecodeEnumShow(nts, 0, Prefix(mode));
    assert nts[0..] == nts;
  }

  /** Reads the list of quoted names from index `n` on: each name follows
      its line break, the prefix `u` and a double quote, and ends at the
      next double quote. */
  function DecodeNames(s: string, n: nat, u: string): (r: Option<seq<string>>)
    decreases |s|
  {
    if s == "\n" then Some([])
    else
      match Expect(s, NtBreak(n) + (u + "\""))
      case None => None
      case Some(t) =>
        var (name, w) := Span(t, '"');
        match Expect(w, "\", ")
        case None => None
        case Some(v) =>
          match DecodeNames(v, n + 1, u)
          case None => None
          case Some(names) => Some([name] + names)
  }

  /** One quoted name in front of text that reads back. */
  lemma DecodeNamesCons(name: string, n: nat, u: string, v: string, names: seq<string>)
    requires '"' !in name && DecodeNames(v, n + 1, u) == Some(names)
    ensures DecodeNames((NtBreak(n) + (u + "\"")) + (name + ("\", " + v)), n, u) == Some([name] + names)
  {
    var s := (NtBreak(n) + (u + "\"")) + (name + ("\", " + v));
    assert s != "\n" by { assert |s| >= 4; }
    ExpectConcat(NtBreak(n) + (u + "\""), name + ("\", " + v));
    SpanConcat(name, "\", ", v);
    ExpectConcat("\", ", v);
  }

  lemma DecodeNamesStep(nts: seq<string>, n: nat, u: string)
    requires n < |nts| && AllAvoid(nts, '"')
    requires DecodeNames(NtEntries(nts, n + 1, u + "\"", "\", ") + "\n", n + 1, u) == Some(nts[n + 1..])
    ensures DecodeNames(NtEntries(nts, n, u + "\"", "\", ") + "\n", n, u) == Some(nts[n..])
  {
    NtEntriesFront(nts, n, u + "\"", "\", ");
    DecodeNamesCons(nts[n], n, u, NtEntries(nts, n + 1, u + "\"", "\", ") + "\n", nts[n + 1..]);
    SliceCons(nts, n);
  }

  lemma DecodeNamesEnd(nts: seq<string>, u: string)
    ensures DecodeNames(NtEntries(nts, |nts|, u + "\"", "\", ") + "\n", |nts|, u) == Some(nts[|nts|..])
  {
    assert NtEntries(nts, |nts|, u + "\"", "\", ") == "";
    assert nts[|nts|..] == [];
  }

  lemma {:induction false} DecodeNamesShow(nts: seq<string>, n: nat, u: string)
    requires n <= |nts| && AllAvoid(nts, '"')
    ensures DecodeNames(NtEntries(nts, n, u + "\"", "\", ") + "\n", n, u) == Some(nts[n..])
    decreases |nts| - n
  {
    if n == |nts| {
      DecodeNamesEnd(nts, u);
    } else {
      DecodeNamesShow(nts, n + 1, u);
      DecodeNamesStep(nts, n, u);
    }
  }

  /** The same for the list of quoted names. */
  lemma NamesTextRoundTrip(nts: seq<string>, mode: CharMode)
    requires AllAvoid(nts, '"')
    ensures DecodeNames(NamesText(nts, mode), 0, Prefix(mode)) == Some(nts)
  {
    DecodeNamesShow(nts, 0, Prefix(mode));
    assert nts[0..] == nts;
  }

  // ------------------------------------------------------------ gen_cc_fns

  /** The names of the character-class entries from position `k` on whose
      nonterminal has a non-empty name, in iteration order. */
  function CcNames(nts: seq<string>, fns: seq<nat>, k: nat): (ns: seq<string>)
    requires CcFnsInTable(nts, fns)
    decreases |fns| - k
  {
    if k >= |fns| then []
    else if |nts[fns[k]]| > 0 then [nts[fns[k]]] + CcNames(nts, fns, k + 1)
    else CcNames(nts, fns, k + 1)
  }

  /** One quoted name per line. */
  function CcLines(names: seq<string>): (s: string)
  {
    if names == [] then "" else "\t\t\t\"" + names[0] + "\",\n" + CcLines(names[1..])
  }

  /** The text gen_cc_fns returns. */
  function CcText(nts: seq<string>, fns: seq<nat>): (s: string)
    requires CcFnsInTable(nts, fns)
  {
    CcLines(CcNames(nts, fns, 0))
  }

  lemma CcLinesCons(name: string, names: seq<string>)
    ensures CcLines([name] + names) == "\t\t\t\"" + name + "\",\n" + CcLines(names)
  {
    assert ([name] + names)[1..] == names;
  }

  /** gen_cc_fns (parser_gen.h:80-87): the table is indexed with each entry
      unchecked, so every entry must name a nonterminal. */
  method GenCcFns(nts: seq<string>, fns: seq<nat>) returns (os: string)
    requires CcFnsInTable(nts, fns)
    ensures os == CcText(nts, fns)
  {
    os := "";
    var k := 0;
    while k < |fns|
      invariant k <= |fns|
      invariant os + CcLines(CcNames(nts, fns, k)) == CcText(nts, fns)
    {
      var name := nts[fns[k]];
      if |name| > 0 {
        CcLinesCons(name, CcNames(nts, fns, k + 1));
        Regroup(os, "\t\t\t\"" + name + "\",\n", CcLines(CcNames(nts, fns, k + 1)));
        os := os + ("\t\t\t\"" + name + "\",\n");
      }
      k := k + 1;
    }
  }

  /** A name is listed exactly when it is non-empty and some entry from
      position `k` on names it. */
  lemma {:induction false} CcNamesMembers(nts: seq<string>, fns: seq<nat>, k: nat, name: string)
    requires CcFnsInTable(nts, fns)
    ensures name in CcNames(nts, fns, k)
        <==> name != "" && exists j :: k <= j < |fns| && nts[fns[j]] == name
    decreases |fns| - k
  {
    if k < |fns| {
      CcNamesMembers(nts, fns, k + 1, name);
      if name != "" && nts[fns[k]] == name {
        assert name in CcNames(nts, fns, k);
      }
      if (exists j :: k <= j < |fns| && nts[fns[j]] == name) && nts[fns[k]] != name {
        var j :| k <= j < |fns| && nts[fns[j]] == name;
        assert k + 1 <= j;
      }
    }
  }

  /** The predicate list names exactly the non-empty names of the
      character-class entries. */
  lemma CcTextMembers(nts: seq<string>, fns: seq<nat>, name: string)
    requires CcFnsInTable(nts, fns)
    ensures name in CcNames(nts, fns, 0)
        <==> name != "" && exists j :: 0 <= j < |fns| && nts[fns[j]] == name
  {
    CcNamesMembers(nts, fns, 0, name);
  }

  /** Reads the lines of the predicate list. */
  function DecodeCcLines(s: string): (r: Option<seq<string>>)
    decreases |s|
  {
    if s == [] then Some([])
    else
      match Expect(s, "\t\t\t\"")
      case None => None
      case Some(t) =>
        var (name, w) := Span(t, '"');
        match Expect(w, "\",\n")
        case None => None
        case Some(v) =>
          match DecodeCcLines(v)
          case None => None
          case Some(names) => Some([name] + names)
  }

  lemma CcLinesFront(names: seq<string>)
    requires names != []
    ensures CcLines(names) == "\t\t\t\"" + (names[0] + ("\",\n" + CcLines(names[1..])))
  {
    Regroup("\t\t\t\"" + names[0], "\",\n", CcLines(names[1..]));
    Regroup("\t\t\t\"", names[0], "\",\n" + CcLines(names[1..]));
  }

  /** One predicate line in front of text that reads back. */
  lemma DecodeCcLinesCons(name: string, v: string, names: seq<string>)
    requires '"' !in name && DecodeCcLines(v) == Some(names)
    ensures DecodeCcLines("\t\t\t\"" + (name + ("\",\n" + v))) == Some([name] + names)
  {
    ExpectConcat("\t\t\t\"", name + ("\",\n" + v));
    SpanConcat(name, "\",\n", v);
    ExpectConcat("\",\n", v);
  }

  lemma {:induction false} DecodeCcLinesShow(names: seq<string>)
    requires AllAvoid(names, '"')
    ensures DecodeCcLines(CcLines(names)) == Some(names)
    decreases |names|
  {
    if names != [] {
      CcLinesFront(names);
      DecodeCcLinesShow(names[1..]);
      DecodeCcLinesCons(names[0], CcLines(names[1..]), names[1..]);
      HeadTail(names);
    }
  }

  lemma {:induction false} CcNamesAvoid(nts: seq<string>, fns: seq<nat>, k: nat, d: char)
    requires CcFnsInTable(nts, fns) && AllAvoid(nts, d)
    ensures AllAvoid(CcNames(nts, fns, k), d)
    decreases |fns| - k
  {
    if k < |fns| {
      CcNamesAvoid(nts, fns, k + 1, d);
    }
  }

  /** The predicate list reads back as the filtered names, one per line, in
      the iteration order of the entries. */
  lemma CcTextRoundTrip(nts: seq<string>, fns: seq<nat>)
    requires CcFnsInTable(nts, fns) && AllAvoid(nts, '"')
    ensures DecodeCcLines(CcText(nts, fns)) == Some(CcNames(nts, fns, 0))
  {
    CcNamesAvoid(nts, fns, 0, '"');
    DecodeCcLinesShow(CcNames(nts, fns, 0));
  }
}
