/** The grammar the generator reads, as the grammar inspector exposes it
    (tools/parser_gen/parser_gen.h:18-27): the start nonterminal, the
    nonterminal table, the production list and the character-class entries. */
module Grammar {

  /** A literal on a right-hand side: a nonterminal id, a terminal
      character, or the null literal. */
  datatype Lit = NT(n: nat) | T(c: char) | Nul

  /** One production: a left-hand nonterminal id and its alternatives,
      each alternative a concatenation of literals. */
  datatype Production = Production(lhs: nat, alts: seq<seq<Lit>>)

  /** `start` is the start nonterminal's id, `nts` the nonterminal names
      (an id is a position in this table), `prods` the production list in
      declaration order and `ccFns` the nonterminal ids of the
      character-class entries, in the order the class table iterates them. */
  datatype Grammar = Grammar(start: nat, nts: seq<string>, prods: seq<Production>, ccFns: seq<nat>)

  /** Character width the parser is generated for: `char` or `char32_t`. */
  datatype CharMode = Narrow | Wide

  /** The C++ name of the character type (parser_gen.h:29-31). */
  function CharType(mode: CharMode): (s: string)
  {
    match mode
    case Narrow => "char"
    case Wide => "char32_t"
  }

  /** The literal prefix: `U` exactly when the character type is `char32_t`
      (parser_gen.h:41). */
  function Prefix(mode: CharMode): (u: string)
    ensures u == "U" <==> mode == Wide
    ensures u == "" <==> mode == Narrow
  {
    if CharType(mode) == "char32_t" then "U" else ""
  }

  /** Every character-class entry names a nonterminal of the table: the
      renderer indexes the table with it unchecked (parser_gen.h:84). */
  predicate CcFnsInTable(nts: seq<string>, ccFns: seq<nat>)
  {
    forall k :: 0 <= k < |ccFns| ==> ccFns[k] < |nts|
  }
}
