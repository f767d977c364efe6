# parser_gen: the C++ parser generator, modelled in Dafny

`generate_parser_cpp` (tools/parser_gen/parser_gen.h) takes a grammar and writes one C++ header.
The header declares a parser struct for that grammar. The part of the generator that carries
meaning is the encoding of the grammar:

- `gen_prods` writes every production as a `q(nt(lhs), (…) & (…));` statement.
- A terminal is written as `t(k)`, where `k` is its index in the terminal table `ts`.
- The table starts as `{ (C)0 }`. The `terminal` lambda appends a character the first time it
  is asked for it.
- After the productions are encoded, `gen_ts` renders `ts` as a list of C++ character
  constants with an escape chain. Its counter is incremented before each entry, so a line
  break goes before entries 9, 19, 29, …: the first line holds nine entries, later lines ten.
- `gen_nts_enum_cte`, `gen_nts` and `gen_cc_fns` render the nonterminal enumeration, the
  nonterminal name list and the character-class name list.
- A grammar without productions writes nothing.

The model keeps one quirk of the source. In `char32_t` mode the enumerators of `gen_nts_enum_cte`
are written with the `U` prefix too (parser_gen.h:67). The class names of `gen_cc_fns` never get
it (parser_gen.h:84).

The Dafny modules follow that structure:

| module | file | what it holds |
|---|---|---|
| `Text` | `text.dfy` | `Option`, decimal rendering of `size_t` values, scanning helpers |
| `Grammar` | `grammar.dfy` | literals, productions, the grammar as the inspector exposes it, `char` vs `char32_t` |
| `Interner` | `interner.dfy` | the terminal table: the `terminal` lambda as a function, and the class `TerminalTable` whose `Intern` method updates the table in place |
| `Escape` | `escape.dfy` | the escape chain and a reader of C++ character constants |
| `Encoder` | `encoder.dfy` | resolution of literals to `nt(n)` / `nul` / `t(k)`, the statement text, and the imperative `GenAlt` / `GenProd` / `GenProds` |
| `ProdParse` | `prodparse.dfy` | a parser for the statement text, the partner of the renderer |
| `Tables` | `tables.dfy` | `gen_ts`, `gen_nts_enum_cte`, `gen_nts` and `gen_cc_fns` as loops, with decoders for their text |
| `Generator` | `generator.dfy` | `comment_grammar`, the document text and `GenerateParserCpp`, plus properties of a whole run and a worked example |

The model keeps the source's loops, proved against specification functions:

- The linear search in `terminal`.
- The nested loops of `gen_prods`.
- The counter `n` of `gen_ts`.
- The index loops of the nonterminal renderers.
- The class-entry loop.
- The line loop of `comment_grammar`.

The partners of those specification functions are decoders and a parser that read the text
back. The statement text is also related to the final table through a denotation function
`DenoteProds`.

## Model

| member | source | states |
|---|---|---|
| Interner.Terminal | tools/parser_gen/parser_gen.h:90-95 | the returned index points at `c` in the new table; a character already present leaves the table unchanged and gets its first position; a new one is appended and gets the old size |
| Interner.TerminalKeepsNoDup | tools/parser_gen/parser_gen.h:90-95 | interning never creates a duplicate entry |
| Interner.ExtendKeepsPrefix | tools/parser_gen/parser_gen.h:93 | interning a sequence of characters only appends to the table |
| Interner.ExtendKeepsNoDup | tools/parser_gen/parser_gen.h:91-94 | a table without duplicates stays without duplicates |
| Interner.ExtendElements | tools/parser_gen/parser_gen.h:91-94 | a character is in the grown table if and only if it was in the seed or was interned |
| Interner.SeedOrder | tools/parser_gen/parser_gen.h:42 | in a table without duplicates, each entry is at its first-use position |
| Interner.ExtendFirstUseOrder | tools/parser_gen/parser_gen.h:90-95 | the entries of the grown table appear in the order of their first occurrence in the seed followed by the interned characters |
| Interner.TerminalTable.constructor | tools/parser_gen/parser_gen.h:42 | the table starts as the single NUL entry |
| Interner.TerminalTable.Intern | tools/parser_gen/parser_gen.h:90-95 | the linear search then `push_back`: the new table and index are those of `Terminal`, and the table invariant (NUL first, no duplicates) is kept |
| Grammar.Prefix | tools/parser_gen/parser_gen.h:41 | the prefix is `U` exactly in `char32_t` mode and empty exactly in `char` mode |
| Escape.EscapeChar | tools/parser_gen/parser_gen.h:50-57 | a special character (NUL, CR, LF, tab, backslash, quote) gets a backslash followed by the escape code C++ reads as that character; every other character is written as itself, with no backslash |
| Escape.EscapeRoundTrip | tools/parser_gen/parser_gen.h:50-57 | the chain is total, and every body it writes reads back, as C++ reads it, as the character it was written for |
| Escape.SpecialEscapes | tools/parser_gen/parser_gen.h:51-56 | each of the six escapes is the one C++ reads as that character |
| Escape.EscapeInjective | tools/parser_gen/parser_gen.h:50-57 | different characters get different bodies |
| Escape.DecodeLiteralRoundTrip | tools/parser_gen/parser_gen.h:50-57 | a whole constant `U'…'` or `'…'` reads back as its character, and the text after it is left untouched |
| Encoder.ResolveProdsTable | tools/parser_gen/parser_gen.h:96-113 | the final table is the seed extended by the grammar's terminals in the order gen_prods meets them |
| Encoder.IndexConsistency | tools/parser_gen/parser_gen.h:90-108 | every printed `t(k)` is in range of the final table; read against that table, the printed references give back the grammar's productions exactly; the starting table is a prefix of the final one |
| Encoder.TerminalRefsAgree | tools/parser_gen/parser_gen.h:106-108 | a literal is the terminal `c` if and only if the reference printed for it is a `t(k)` with `fin[k] == c` |
| Encoder.GenAlt | tools/parser_gen/parser_gen.h:101-110 | one alternative: `(`, then its references joined by `+`, then `)`; the table is left as resolution leaves it |
| Encoder.GenProd | tools/parser_gen/parser_gen.h:97-112 | one statement `\t\tq(nt(lhs), …);` with the alternatives joined by ` & `; the table is left as resolution leaves it |
| Encoder.GenProds | tools/parser_gen/parser_gen.h:96-113 | the statements of all productions in list order, and the grown table |
| ProdParse.ParseRefShow | tools/parser_gen/parser_gen.h:106-108 | each printed reference `nt(n)`, `nul` or `t(k)` parses back to itself |
| ProdParse.ParseProdShow | tools/parser_gen/parser_gen.h:97-112 | one printed statement parses back to its production, and the text after it is left untouched |
| ProdParse.ParseProdsShow | tools/parser_gen/parser_gen.h:96-113 | the whole statement text parses back to the resolved productions |
| Tables.CounterStep | tools/parser_gen/parser_gen.h:47-49 | the counter wraps to 0 exactly on entries 9, 19, 29, …, and it always equals the number of entries written modulo 10 |
| Tables.GenTs | tools/parser_gen/parser_gen.h:44-61 | the loop writes `\t\t`, each entry as a constant followed by `, ` with a line break before entries 9, 19, 29, …, then `\n` |
| Tables.TsTextRoundTrip | tools/parser_gen/parser_gen.h:44-61 | the rendered table reads back as the table, entry by entry and in order |
| Tables.GenNtsEnum | tools/parser_gen/parser_gen.h:62-70 | the loop writes each name with the prefix and `, `, a line break before every name at a multiple of 10, then `\n` |
| Tables.EnumTextRoundTrip | tools/parser_gen/parser_gen.h:62-70 | the enumerator text reads back as the nonterminal table, for names without a comma |
| Tables.GenNts | tools/parser_gen/parser_gen.h:71-79 | like the enumeration, but each name is quoted |
| Tables.NamesTextRoundTrip | tools/parser_gen/parser_gen.h:71-79 | the name list reads back as the nonterminal table, for names without a double quote |
| Tables.GenCcFns | tools/parser_gen/parser_gen.h:80-87 | one quoted line per class entry whose nonterminal has a non-empty name, in iteration order |
| Tables.CcTextMembers | tools/parser_gen/parser_gen.h:83-85 | a name is listed if and only if it is non-empty and some class entry names it |
| Tables.CcTextRoundTrip | tools/parser_gen/parser_gen.h:80-87 | the class-name text reads back as the filtered list of names |
| Generator.CommentGrammar | tools/parser_gen/parser_gen.h:116-123 | every line of the file is written as `// line` followed by a newline, in order |
| Generator.CommentRoundTrip | tools/parser_gen/parser_gen.h:121 | the comment text reads back as the lines, when no line holds a newline |
| Generator.GenerateParserCpp | tools/parser_gen/parser_gen.h:34-190 | a grammar without productions leaves the stream unchanged; otherwise the stream is extended by the document, whose tables are rendered from the table the encoding left |
| Generator.FinalTable | tools/parser_gen/parser_gen.h:90-95 | the rendered table starts with NUL, has no duplicates, and holds exactly NUL and the grammar's terminals |
| Generator.FinalTableOrder | tools/parser_gen/parser_gen.h:90-95 | the rendered table lists the terminals in first-use order after NUL |
| Generator.RenderedTextsAgree | tools/parser_gen/parser_gen.h:155-185 | the statement text and the table text of a run read back; the references are in range of the table, and through it they denote the grammar's productions |
| Generator.SmallGrammarEncoded | tools/parser_gen/parser_gen.h:90-108 | for a start symbol with the two alternatives `'a' 'b'` and `null`, the table becomes `[NUL, 'a', 'b']` and the references are `t(1)`, `t(2)` and `nul` |
| Generator.SmallGrammarStatement | tools/parser_gen/parser_gen.h:97-112 | the statement of that grammar is `\t\tq(nt(0), (t(1)+t(2)) & (nul));` |
| Generator.SmallGrammarTable | tools/parser_gen/parser_gen.h:44-61 | its table text in `char` mode is `\t\t'\0', 'a', 'b', ` followed by a newline |

## Left out

- Reading the grammar (`tgf<C, T>::from_file`, parser_gen.h:38): the grammar is an input value. The TGF parser is not part of this model.
- `grammar_inspector` (parser_gen.h:18-27): its four accessors become the fields of `Grammar.Grammar`.
- `g.size() == 0` (parser_gen.h:39) is read as "the grammar has no productions". The grammar class is not part of this model.
- `to_std_string` (UTF-8 encoding of a `char32_t`) is modelled as the identity on a Dafny `char`. In `char` mode, characters are not restricted to bytes.
- The `static_assert`s and the character types other than `char` and `char32_t` (parser_gen.h:29-36) are left out. Only the two modes are modelled.
- The wrappers `generate_parser_cpp_from_file` / `from_string` and their file I/O (parser_gen.h:192-210) are left out.
- Streams are modelled as strings. `os` is the text the stream held before the call, and the result is the text it holds after; stream errors are left out.
- Generator.CommentGrammar: the file's lines are an input, and reading the file is left out. The source opens the file `name`, not `tgf_filename`; the model takes whatever lines that file holds.
- The meaning of the generated C++ at run time (the `idni::parser` classes it calls) is left out. The fixed text around the tables is modelled literally.
- Tables.EnumTextRoundTrip, Tables.NamesTextRoundTrip and Tables.CcTextRoundTrip require names without `,` or `"`, because the source writes names unescaped; with such a name the text is ambiguous.
- `is_null()` (parser_gen.h:107) is taken to be false for every terminal, including the NUL character. A literal is `nul` only when it is the null literal `Grammar.Nul`, so a NUL terminal is interned and printed as `t(0)`. The `lit` class in parser.h is not part of this model.
- Generator.CommentRoundTrip requires lines without a newline, which `std::getline` guarantees.
