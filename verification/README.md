# clang_ast2dot core, modelled in Dafny

`clang_ast2dot` reads the indented text dump of a Clang AST, one node per
line, and is meant to turn it into a Graphviz `digraph`. The parts of the
program that hold real logic, as opposed to library plumbing, are modelled
here as pure functions, with their properties proved.

1. **Bracket quoting of an input line.** Inside the read loop of
   `Ast2DotMain::do_main`, before a line is tokenized, its first
   `<<<…>>>`, `<<…>>` or `<…>` field is meant to be wrapped in double
   quotes.
   - `LineQuoting` models the code as written, on `std::string` semantics:
     - `find_first_of` searches for a *set of characters*;
     - `replace` clamps its count and throws `std::out_of_range` when
       given `npos`.
   - `MarkerQuoting` is the evidently intended rewrite. It uses substring
     search, quotes the field verbatim, and leaves a line with an
     unterminated marker alone. It is the corrected half of the findings
     below.
2. **`var2option_mapper`** (`EnvMapper`) maps an environment variable name
   to a program option. Only names starting with `CLANG` are examined.
3. **`compute_verbose`** (`Verbosity`) folds the values of the `-v` option
   into the verbosity level.
   - An empty entry resets the level to 0; any other entry adds its C
     `atoi` value.
   - The default and implicit values that `main` installs are covered too.
4. **The relationship-prefix grammar** (`PrefixGrammar`) is the anchored
   regular expression `^((\| )|( \|)|(  ))*(\|-|`-)$`. This is the only
   concrete definition in the repository of the tree-drawing prefix each
   node line starts with. It is stated three ways, proved equivalent:
   - as a regular decomposition into filler units and one terminator;
   - as an inductive predicate;
   - as an executable two-characters-at-a-time check.

Supporting modules:
- `Results` holds the `Result` type, which models a thrown exception as
  `Failure`.
- `StdString` holds the `std::string` operations:
  - the ones the core uses: `find_first_of`, `replace` (including its
    clamping and its out-of-range failure) and `substr(0, n)`;
  - `find`, which the source never calls. It serves only the corrected
    rewrite in `MarkerQuoting`.

`npos` is a separate constructor, `Pos.Npos`, rather than the integer
2^64-1. The code only compares search results with `npos`, which the
`Npos` arms of the matches model, and passes it to `replace`, which always
throws for it. It never does arithmetic on it.

Why `MarkerQuoting` is taken as the intended behaviour, from the source
itself:
- The log messages at src/clang_ast2dot.cc:118, 127 and 136 name three
  distinct fields: `'<<<...>>>'`, `'<<...>>'` and `'<...>'`.
- The if / else-if chain at lines 115, 124 and 133 tries these markers
  longest first.
- With `find_first_of`, though, every `'<'` takes the first branch and the
  other two can never run.
- When no closing character follows, `npos` reaches `replace` at line 120.
  The resulting `out_of_range` is caught nowhere: `main` catches only
  `program_options::error` (line 374). The unterminated case was never
  handled. The corrected rewrite leaves such a line as it is.

The parser declared in `src/clang_ast_parser.h` has no implementation, so
no relationship decoder or tree builder is modelled. Only the grammar that
the regular expression at examples/boost_re.cc:49 defines is modelled.

## Model

| member | source | states |
|---|---|---|
| `StdString.FindFirstOf` | src/clang_ast2dot.cc:115 | `find_first_of` returns the first index at or after `from` whose character is in the argument set, or `npos` when no such character exists |
| `StdString.FindFirstOfSameCharacters` | src/clang_ast2dot.cc:115-133 | two argument strings with the same characters give the same search result, so `"<<<"`, `"<<"` and `"<"` are one search |
| `StdString.Splice` | src/clang_ast2dot.cc:119 | an in-range `replace(i, count, t)` keeps the prefix before `i`, has `t` at `i`, and continues with the original after `i + min(count, size - i)`; its length follows from that |
| `StdString.Replace` | src/clang_ast2dot.cc:119-120 | `replace` fails with out-of-range exactly when the position is `npos` or past the end, and otherwise performs the splice |
| `StdString.SpliceUndo` | src/clang_ast2dot.cc:119 | a `replace` is undone by replacing the inserted text with the removed characters |
| `StdString.Prefix` | src/clang_ast2dot.cc:182 | `substr(0, n)` is a prefix of length `min(n, size)`, so it is defined for names shorter than `n` |
| `StdString.PrefixEqualsIffStartsWith` | src/clang_ast2dot.cc:182 | comparing `substr(0, |w|)` with `w` is the same as testing that the string starts with `w` |
| `LineQuoting.Enclose` | src/clang_ast2dot.cc:119-120 | one branch body: two `replace` calls; when neither throws, the line grows by at least two characters, since each replacement writes at least one character more than it can remove (the 1x opening writes three for one) |
| `LineQuoting.QuoteLine` | src/clang_ast2dot.cc:115-141 | a line without `'<'` is returned unchanged and without error; a line with a `'<'` never comes back unchanged (it fails or grows) |
| `LineQuoting.OpenSearchFindsFirstAngle` | src/clang_ast2dot.cc:115-133 | each branch's opening search finds the first `'<'` of the line, whichever marker string it is given |
| `LineQuoting.LaterBranchesNeverRewrite` | src/clang_ast2dot.cc:124-141 | the 2x and 1x branches are reached only when the 3x search found nothing, and then their searches find nothing either, so the line is unchanged |
| `LineQuoting.QuoteLineTakesTripleBranch` | src/clang_ast2dot.cc:115-120 | when the first `'<'` is at `p`, the result is that of the 3x branch at `p` |
| `LineQuoting.OpenedShape` | src/clang_ast2dot.cc:119 | the intermediate line keeps the first `p` characters, holds `"<<<` at `p..p+4`, loses `min(3, size - p)` original characters and keeps the rest |
| `LineQuoting.QuoteLineFailsWithoutCloser` | src/clang_ast2dot.cc:120 | when no `'>'` follows index `p + 4` of the intermediate line, `replace` receives `npos` and the step fails with out-of-range |
| `LineQuoting.QuoteLineClosesAt` | src/clang_ast2dot.cc:119-120 | when the first `'>'` at or after `p + 4` is at `q`, the result is the intermediate line with `>>>"` replacing 3 characters at `q` |
| `LineQuoting.QuoteLineSucceeds` | src/clang_ast2dot.cc:119-120 | in that case the result keeps the line before `p`, has `"<<<` at `p` and `>>>"` at `q`, and its length is the exact sum of the two clamped replacements |
| `LineQuoting.QuoteLineFailureIff` | src/clang_ast2dot.cc:119-120 | a line with a `'<'` fails exactly when no `'>'` follows the inserted opening |
| `LineQuoting.DoubleMarkerLosesContent` | src/clang_ast2dot.cc:115-120 | `<<x>>` becomes `"<<<>>>"`: the field's content is overwritten |
| `LineQuoting.SingleMarkerThrows` | src/clang_ast2dot.cc:115-120 | `a <b> c` fails with out-of-range, because the opening replace consumes the closing `'>'` |
| `LineQuoting.SingleBranchInsertsDigit` | src/clang_ast2dot.cc:137-138 | the 1x branch, if it ran, would turn `<a>` into `"<1a>"`, with a stray `1` |
| `MarkerQuoting.QuoteAroundUndo` | src/clang_ast2dot.cc:119-120 | quoting adds exactly two characters, two `'"'` at the ends of the span, keeps the span verbatim, and removing both quotes gives the line back |
| `MarkerQuoting.EncloseSpanQuotesField` | src/clang_ast2dot.cc:119-120 | with the first closing marker after the opening one at `q`, a corrected branch quotes exactly the span from the opening marker to the end of the closing one |
| `MarkerQuoting.EncloseSpanKeepsUnterminated` | src/clang_ast2dot.cc:120 | with no closing marker after the opening one, a corrected branch leaves the line unchanged instead of failing |
| `MarkerQuoting.EncloseSpan` | src/clang_ast2dot.cc:119-120 | one corrected branch body: the line is either kept or gains exactly two characters |
| `MarkerQuoting.QuoteMarkers` | src/clang_ast2dot.cc:115-141 | the corrected rewrite leaves a line without `'<'` unchanged, and otherwise either leaves the line unchanged or inserts exactly two quotes around one span |
| `MarkerQuoting.TripleMarkerQuoted` | src/clang_ast2dot.cc:115-120 | a line with `<<<` at `p` whose first `>>>` after it is at `q` gets `"` before `p` and after `q + 3`, and the field between them is verbatim |
| `MarkerQuoting.UnterminatedMarkerLeavesLine` | src/clang_ast2dot.cc:120 | a `<<<` without a following `>>>` leaves the line unchanged |
| `MarkerQuoting.DoubleMarkerQuoted` | src/clang_ast2dot.cc:124-129 | the 2x branch runs only when there is no `<<<`; it quotes from the first `<<` to the end of the first `>>` after it |
| `MarkerQuoting.SingleMarkerQuoted` | src/clang_ast2dot.cc:133-138 | the 1x branch runs only when there is neither `<<<` nor `<<`; it quotes from the first `<` to the first `>` after it |
| `MarkerQuoting.CorrectedKeepsDoubleField` | src/clang_ast2dot.cc:124-129 | the corrected rewrite turns `<<x>>` into `"<<x>>"` |
| `MarkerQuoting.CorrectedKeepsSingleField` | src/clang_ast2dot.cc:133-138 | the corrected rewrite turns `a <b> c` into `a "<b>" c` |
| `MarkerQuoting.CorrectedSingleBranchInsertsNoDigit` | src/clang_ast2dot.cc:137-138 | the corrected 1x branch turns `<a>` into `"<a>"` |
| `EnvMapper.VarToOption` | src/clang_ast2dot.cc:178-212 | the result is always `""`, `input`, `output` or `verbose`; each option is produced exactly for its one variable name; a name not starting with `CLANG` maps to `""` |
| `EnvMapper.ShortNamesIgnored` | src/clang_ast2dot.cc:182 | a name shorter than five characters maps to `""` |
| `EnvMapper.MappedNamesAreDistinct` | src/clang_ast2dot.cc:186-203 | two names that map to the same non-empty option are the same name |
| `Verbosity.DropSpaces` | src/clang_ast2dot.cc:226 | `atoi` skips a maximal run of leading `isspace` characters: the result is a suffix, everything dropped is white space, and the result does not start with white space |
| `Verbosity.LeadingDigits` | src/clang_ast2dot.cc:226 | `atoi` reads the longest run of digits: a prefix made only of digits, followed by a non-digit or the end |
| `Verbosity.Atoi` | src/clang_ast2dot.cc:226 | `atoi` gives 0 unless a digit, or a sign followed by a digit, follows the leading white space; a negative value needs a `'-'` there |
| `Verbosity.AtoiOfDecimalString` | src/clang_ast2dot.cc:226 | `atoi` reads back the decimal spelling of every integer, whatever non-digit text follows it |
| `Verbosity.AtoiOfPlusDigitString` | src/clang_ast2dot.cc:226 | a `'+'` sign is accepted and ignored: `+` then digits then a non-digit reads as the digits' value |
| `Verbosity.AtoiOfSignedDigitString` | src/clang_ast2dot.cc:226 | an entry made of an optional sign (none, `+` or `-`), then decimal digits (at least one when unsigned), then a non-digit or the end, reads as the digits' value, negated exactly when the sign is `-` |
| `Verbosity.AtoiSkipsSpaces` | src/clang_ast2dot.cc:226 | leading white space does not change the value `atoi` reads |
| `Verbosity.AtoiOfNonNumeric` | src/clang_ast2dot.cc:226 | text that starts with neither white space, a sign nor a digit reads as 0 |
| `Verbosity.ComputeVerbose` | src/clang_ast2dot.cc:214-230 | the fold of `compute_verbose`: with some empty entry, the level is the sum of the `atoi` values after the last empty entry; with none, it is the prior level plus the sum of all values |
| `Verbosity.ComputeVerboseAddsAll` | src/clang_ast2dot.cc:214-227 | without empty entries the level grows by the sum of the entries' `atoi` values |
| `Verbosity.ComputeVerboseEndsAtReset` | src/clang_ast2dot.cc:223-224 | a trailing empty entry leaves the level at 0, whatever the prior level and entries were |
| `Verbosity.ComputeVerboseForgetsBeforeReset` | src/clang_ast2dot.cc:217-227 | an empty entry forgets the prior level and every entry before it |
| `Verbosity.ComputeVerboseAfterLastReset` | src/clang_ast2dot.cc:214-227 | the level is the sum of the values after the last empty entry |
| `Verbosity.DefaultAndImplicitLevels` | src/clang_ast2dot.cc:242-246 | the default vector `["", "0"]` yields level 0 and the implicit vector `["", "1"]` yields level 1, whatever the level was before |
| `PrefixGrammar.MatchesIffPattern` | examples/boost_re.cc:49 | the inductive predicate accepts exactly the strings that decompose into filler units followed by one terminator |
| `PrefixGrammar.DecompositionIsUnique` | examples/boost_re.cc:49 | a matching string decomposes in exactly one way, with `(size - 2) / 2` filler units before the terminator |
| `PrefixGrammar.MatchesIffBlockwise` | examples/boost_re.cc:49 | a string matches iff its length is even and at least 2, every two-character block before the last is a filler, and the last block is a terminator |
| `PrefixGrammar.CheckPairsIffMatches` | examples/boost_re.cc:49 | the executable pairwise check from index `i` accepts exactly when the suffix from `i` matches |
| `PrefixGrammar.CheckPairsIffPattern` | examples/boost_re.cc:49 | the executable check accepts exactly the pattern's language |
| `PrefixGrammar.SingleDashAtEnd` | src/clang_ast_parser.h:93-94 | a matching prefix ends with a dash and holds no other dash |
| `PrefixGrammar.FillersAloneRejected` | examples/boost_re.cc:49 | the empty string, and any string made only of filler units, do not match |
| `PrefixGrammar.NoProperExtension` | examples/boost_re.cc:49 | because of the anchoring, a match followed by any non-empty suffix does not match |
| `PrefixGrammar.PrependFiller` | examples/boost_re.cc:49 | one more filler unit in front of a match is still a match |
| `PrefixGrammar.SamplesAccepted` | examples/boost_re.cc:50-76 | every sample prefix the program tries against the pattern is accepted |

## Left out

- The stream handling of `do_main` is I/O and is not modelled. This covers
  redirecting `cin`/`cout`, opening and closing files, the `getline` loop
  and the `digraph {` output (src/clang_ast2dot.cc:62-110, 152-174). The
  quoting step is modelled as a function of one line.
  - The file is opened only when the name *is* `-` (lines 72 and 86).
  - `cout` is restored from `cin`'s saved buffer (line 166).
  - These look wrong but lie outside the modelled core.
- The `boost::escaped_list_separator` tokenizing (src/clang_ast2dot.cc:143-151)
  is not modelled. Its semantics belong to a library that is not part of
  this model, and the tokens are only logged.
- Command-line, configuration-file and environment parsing through
  `boost::program_options` (src/clang_ast2dot.cc:232-381) is library
  plumbing. Only the mapper it is handed and the verbosity notifier are
  modelled.
- All `cerr` diagnostics gated on the verbosity level are left out. This
  includes the `substr` calls that only build log text (lines 122, 131
  and 140).
- The parser class in `src/clang_ast_parser.h` is declared but has no
  bodies, and `src/clang_ast_parser.cc` holds only an empty constructor
  and destructor. So no relationship decoder, tree builder, null-vertex
  registry or property escaper is modelled, since there is no code to
  check one against. Its "terminates with one dash" promise appears only
  as `PrefixGrammar.SingleDashAtEnd`.
- `boost::regex_match` itself is a library call. The language it decides
  for the line-49 pattern is modelled instead.
- The `Ast2DotMain` constructor, destructor and `vm()` accessor are
  trivial. The tests and mock headers are test scaffolding.
- Verbosity.Atoi: the C result is an `int`, and overflow in `atoi` is
  undefined behaviour. The model reads an unbounded integer.
- Verbosity.ComputeVerbose, Verbosity.ComputeVerboseAddsAll and
  Verbosity.ComputeVerboseAfterLastReset: `opt_verbose` is a C `int`, and
  the overflow of its additions is not modelled; the level and the sums are
  unbounded integers.
- Byte-level text: a `char` of the model stands for one byte of a
  `std::string`, with values 0..255. The `replace` counts at
  src/clang_ast2dot.cc:119-120, 128-129 and 137-138 count bytes, so a line
  with UTF-8 text must be given to `LineQuoting.QuoteLine` byte by byte.
  Read as one element per Unicode character, the model would disagree with
  the program on non-ASCII lines, and the program's cutting of a multi-byte
  character in half appears only in the byte reading.

## Findings

| source | as written | input that shows it | evidently intended | confidence | as-written member | corrected member |
|---|---|---|---|---|---|---|
| src/clang_ast2dot.cc:115-138 | `find_first_of("<<<")`, `find_first_of(">>>", …)` and the 2x/1x variants search for any one character of the set, so the first `'<'` always takes the 3x branch, the 2x and 1x branches are dead, and a 2x or 1x field is mangled | `<<x>>` becomes `"<<<>>>"`; `a <b> c` throws | search the markers as substrings (`find`), longest first, and quote the field verbatim | high; not executed | `LineQuoting.DoubleMarkerLosesContent` | `MarkerQuoting.CorrectedKeepsDoubleField` |
| src/clang_ast2dot.cc:120 | when no closing character follows the opening, `find_first_of` returns `npos` and `replace(npos, …)` throws `std::out_of_range`, which `main` does not catch (it catches only `program_options::error`, line 374) | `a <b> c`, `<<<x` | leave a line with an unterminated marker unquoted | high; not executed | `LineQuoting.SingleMarkerThrows` | `MarkerQuoting.UnterminatedMarkerLeavesLine` |
| src/clang_ast2dot.cc:137 | the 1x branch writes `"<1` in place of `<`, inserting a stray digit into the field | `<a>` would become `"<1a>"` | write `"<`, as the 3x and 2x branches do for their markers | medium; not executed | `LineQuoting.SingleBranchInsertsDigit` | `MarkerQuoting.CorrectedSingleBranchInsertsNoDigit` |
