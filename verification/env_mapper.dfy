/**
  `var2option_mapper`: the name mapper handed to the environment parser.
  Only variables whose name starts with `CLANG` are examined; three exact
  names select the `input`, `output` and `verbose` options, and every other
  name yields the empty string, which tells the parser to ignore the variable.
  The diagnostic output the function writes is not modelled.
 */
module EnvMapper {
  import opened StdString

  const InputVariable: string := "CLANG_AST2DOT_INPUT_FILENAME"
  const OutputVariable: string := "CLANG_AST2DOT_OUTPUT_FILENAME"
  const VerboseVariable: string := "CLANG_AST2DOT_VERBOSE_LEVEL"

  /** The option names the mapper can produce; the empty string means "not an option". */
  predicate IsMapperResult(option: string)
  {
    option == "" || option == "input" || option == "output" || option == "verbose"
  }

  function VarToOption(name: string): (option: string)
    ensures IsMapperResult(option)
    ensures option == "input" <==> name == InputVariable
    ensures option == "output" <==> name == OutputVariable
    ensures option == "verbose" <==> name == VerboseVariable
    ensures !("CLANG" <= name) ==> option == ""
  {
    PrefixEqualsIffStartsWith(name, "CLANG");
    if Prefix(name, 5) == "CLANG" then
      if name == InputVariable then "input"
      else if name == OutputVariable then "output"
      else if name == VerboseVariable then "verbose"
      else ""
    else ""
  }

  /** Names shorter than five characters never reach the option table. */
  lemma ShortNamesIgnored(name: string)
    requires |name| < 5
    ensures VarToOption(name) == ""
  {
  }

  /** Distinct variables never feed the same option: the mapping is injective on what it keeps. */
  lemma MappedNamesAreDistinct(a: string, b: string)
    requires VarToOption(a) != ""
    requires VarToOption(a) == VarToOption(b)
    ensures a == b
  {
  }
}
