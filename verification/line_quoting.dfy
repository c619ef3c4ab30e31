/**
  The bracket-quoting rewrite that `Ast2DotMain::do_main` applies to every
  input line before tokenizing it, modelled exactly as written: the three
  searches use `find_first_of`, so `"<<<"`, `"<<"` and `"<"` all name the
  one-character set {'<'}, and the closing searches all look for any '>'.
  A closing search that finds nothing hands `npos` to `replace`, which
  throws `std::out_of_range`; that exception is the `Failure` result.
  A `char` of the line stands for one byte of the `std::string` (values
  0..255): the counts of `replace` count bytes, so UTF-8 text is modelled
  byte by byte, one element per code unit.
 */
module LineQuoting {
  import opened Results
  import opened StdString

  /** The three branches of the if / else-if chain, in the order they are tried. */
  datatype Marker = Triple | Double | Single

  /** Argument of the opening `find_first_of`. */
  function OpenSearch(m: Marker): seq<char>
  {
    match m
    case Triple => "<<<"
    case Double => "<<"
    case Single => "<"
  }

  /** Count and text of the first `replace`. */
  function OpenCount(m: Marker): nat
  {
    match m
    case Triple => 3
    case Double => 2
    case Single => 1
  }

  function OpenText(m: Marker): seq<char>
  {
    match m
    case Triple => "\"<<<"
    case Double => "\"<<"
    case Single => "\"<1"
  }

  /** Argument of the closing `find_first_of`, and its start offset from the opening position. */
  function CloseSearch(m: Marker): seq<char>
  {
    match m
    case Triple => ">>>"
    case Double => ">>"
    case Single => ">"
  }

  function CloseSkip(m: Marker): nat
  {
    match m
    case Triple => 4
    case Double => 3
    case Single => 2
  }

  /** Count and text of the second `replace`. */
  function CloseCount(m: Marker): nat
  {
    OpenCount(m)
  }

  function CloseText(m: Marker): seq<char>
  {
    match m
    case Triple => ">>>\""
    case Double => ">>\""
    case Single => ">\""
  }

  /**
    The body of one branch, entered with the opening position `p` that its
    search returned. Each replacement writes at least one character more
    than it may remove (the 1x opening writes three for one), so a branch
    that does not throw always lengthens the line.
   */
  function Enclose(line: seq<char>, p: nat, m: Marker): (r: Result<seq<char>, StringError>)
    ensures r.Success? ==> |r.value| >= |line| + 2
  {
    match Replace(line, Index(p), OpenCount(m), OpenText(m))
    case Failure(e) => Failure(e)
    case Success(mid) =>
      Replace(mid, FindFirstOf(mid, CloseSearch(m), p + CloseSkip(m)), CloseCount(m), CloseText(m))
  }

  /** The whole if / else-if chain applied to one line. */
  function QuoteLine(line: seq<char>): (r: Result<seq<char>, StringError>)
    ensures '<' !in line ==> r == Success(line)
    ensures '<' in line ==> r != Success(line)
  {
    match FindFirstOf(line, OpenSearch(Triple), 0)
    case Index(p) => Enclose(line, p, Triple)
    case Npos =>
      match FindFirstOf(line, OpenSearch(Double), 0)
      case Index(p) => Enclose(line, p, Double)
      case Npos =>
        match FindFirstOf(line, OpenSearch(Single), 0)
        case Index(p) => Enclose(line, p, Single)
        case Npos => Success(line)
  }

  /** `p` is the index of the first '<' of `line`. */
  predicate FirstOpen(line: seq<char>, p: nat)
  {
    p < |line| && line[p] == '<' && forall k | 0 <= k < p :: line[k] != '<'
  }

  /** The line after the first `replace` of the 3x branch at the first '<', index `p`. */
  function Opened(line: seq<char>, p: nat): seq<char>
    requires p < |line|
  {
    line[..p] + "\"<<<" + line[p + Min(3, |line| - p)..]
  }

  /** `q` is the first '>' of `s` at or after `from`. */
  predicate FirstCloseFrom(s: seq<char>, from: nat, q: nat)
  {
    from <= q < |s| && s[q] == '>' && forall k | from <= k < q :: s[k] != '>'
  }

  /** The '<'-search of every branch finds the first '<', whichever of the three strings it is given. */
  lemma OpenSearchFindsFirstAngle(line: seq<char>, m: Marker)
    ensures FindFirstOf(line, OpenSearch(m), 0) == FindFirstOf(line, "<", 0)
    ensures forall p :: FirstOpen(line, p) <==> FindFirstOf(line, "<", 0) == Index(p)
  {
    FindFirstOfSameCharacters(line, OpenSearch(m), "<", 0);
  }

  /**
    The 2x and 1x branches are entered only when the 3x search found no '<',
    and then their own searches find none either: the line is returned unchanged.
   */
  lemma LaterBranchesNeverRewrite(line: seq<char>)
    ensures FindFirstOf(line, OpenSearch(Triple), 0).Npos? ==>
              FindFirstOf(line, OpenSearch(Double), 0).Npos? &&
              FindFirstOf(line, OpenSearch(Single), 0).Npos? &&
              QuoteLine(line) == Success(line)
  {
    OpenSearchFindsFirstAngle(line, Triple);
    OpenSearchFindsFirstAngle(line, Double);
    OpenSearchFindsFirstAngle(line, Single);
  }

  /** A line with a '<' goes through the 3x branch, at its first '<'. */
  lemma QuoteLineTakesTripleBranch(line: seq<char>, p: nat)
    requires FirstOpen(line, p)
    ensures QuoteLine(line) == Enclose(line, p, Triple)
  {
    OpenSearchFindsFirstAngle(line, Triple);
  }

  /**
    The first `replace` keeps the `p` characters before the first '<',
    writes `"<<<` at p..p+4 and removes min(3, |line| - p) original characters.
   */
  lemma OpenedShape(line: seq<char>, p: nat)
    requires FirstOpen(line, p)
    ensures Replace(line, Index(p), OpenCount(Triple), OpenText(Triple)) == Success(Opened(line, p))
    ensures var mid := Opened(line, p);
      && |mid| == |line| + 4 - Min(3, |line| - p)
      && mid[..p] == line[..p]
      && mid[p..p + 4] == "\"<<<"
      && mid[p + 4..] == line[p + Min(3, |line| - p)..]
  {
  }

  /**
    When no '>' follows position p + 4 of the intermediate line, the closing
    search yields `npos` and the second `replace` throws `out_of_range`.
   */
  lemma QuoteLineFailsWithoutCloser(line: seq<char>, p: nat)
    requires FirstOpen(line, p)
    requires forall k | p + 4 <= k < |Opened(line, p)| :: Opened(line, p)[k] != '>'
    ensures QuoteLine(line) == Failure(OutOfRange)
  {
    QuoteLineTakesTripleBranch(line, p);
    OpenedShape(line, p);
    var mid := Opened(line, p);
    FindFirstOfSameCharacters(mid, CloseSearch(Triple), ">", p + 4);
  }

  /** With a closing '>' at `q`, the second `replace` runs at `q` of the intermediate line. */
  lemma QuoteLineClosesAt(line: seq<char>, p: nat, q: nat)
    requires FirstOpen(line, p)
    requires FirstCloseFrom(Opened(line, p), p + 4, q)
    ensures QuoteLine(line) == Success(Splice(Opened(line, p), q, 3, ">>>\""))
  {
    QuoteLineTakesTripleBranch(line, p);
    OpenedShape(line, p);
    var mid := Opened(line, p);
    FindFirstOfSameCharacters(mid, CloseSearch(Triple), ">", p + 4);
    assert FindFirstOf(mid, ">", p + 4) == Index(q);
  }

  /**
    When the first '>' at or after p + 4 of the intermediate line is at `q`,
    the result keeps the intermediate line before `q`, writes `>>>"` at q..q+4
    and removes min(3, |mid| - q) characters of it; its length follows from
    the two clamped replacements.
   */
  lemma QuoteLineSucceeds(line: seq<char>, p: nat, q: nat)
    requires FirstOpen(line, p)
    requires FirstCloseFrom(Opened(line, p), p + 4, q)
    ensures QuoteLine(line).Success?
    ensures var mid := Opened(line, p);
      var out := QuoteLine(line).value;
      && out == mid[..q] + ">>>\"" + mid[q + Min(3, |mid| - q)..]
      && out[..p] == line[..p]
      && out[p..p + 4] == "\"<<<"
      && out[q..q + 4] == ">>>\""
      && |out| == |line| + 8 - Min(3, |line| - p) - Min(3, |mid| - q)
  {
    QuoteLineClosesAt(line, p, q);
    OpenedShape(line, p);
    var mid := Opened(line, p);
    var out := Splice(mid, q, 3, ">>>\"");
    SameSlices(out, mid, 0, p, q);
    SameSlices(out, mid, p, p + 4, q);
  }

  /** Two sequences that agree up to `k` agree on every slice below `k`. */
  lemma SameSlices(a: seq<char>, b: seq<char>, i: nat, j: nat, k: nat)
    requires i <= j <= k <= |a| && k <= |b| && a[..k] == b[..k]
    ensures a[i..j] == b[i..j]
  {
    forall t | 0 <= t < j - i ensures a[i..j][t] == b[i..j][t] {
      assert a[i..j][t] == a[..k][i + t];
      assert b[i..j][t] == b[..k][i + t];
    }
  }

  /** The rewrite fails exactly when the line has a '<' and no '>' follows the inserted opening. */
  lemma QuoteLineFailureIff(line: seq<char>, p: nat)
    requires FirstOpen(line, p)
    ensures QuoteLine(line).Failure? <==>
              forall k | p + 4 <= k < |Opened(line, p)| :: Opened(line, p)[k] != '>'
  {
    var mid := Opened(line, p);
    if forall k | p + 4 <= k < |mid| :: mid[k] != '>' {
      QuoteLineFailsWithoutCloser(line, p);
    } else {
      QuoteLineTakesTripleBranch(line, p);
      OpenedShape(line, p);
      FindFirstOfSameCharacters(mid, CloseSearch(Triple), ">", p + 4);
      var q := FindFirstOf(mid, ">", p + 4);
      assert q.Index?;
    }
  }

  /**
    Because the searches are character-set searches, a 2x marker loses its
    content: `<<x>>` becomes `"<<<>>>"`.
   */
  lemma DoubleMarkerLosesContent()
    ensures QuoteLine("<<x>>") == Success("\"<<<>>>\"")
  {
    var line: seq<char> := "<<x>>";
    assert FirstOpen(line, 0);
    assert line[3..] == ">>";
    var mid := Opened(line, 0);
    assert mid == "\"<<<>>";
    assert FirstCloseFrom(mid, 4, 4);
    QuoteLineSucceeds(line, 0, 4);
    assert mid[..4] + ">>>\"" + mid[6..] == "\"<<<>>>\"";
  }

  /**
    For the same reason a 1x marker is fatal: the 3x branch replaces `<b>`
    with `"<<<`, no '>' is left after it, and `a <b> c` throws `out_of_range`.
   */
  lemma SingleMarkerThrows()
    ensures QuoteLine("a <b> c") == Failure(OutOfRange)
  {
    var line: seq<char> := "a <b> c";
    assert FirstOpen(line, 2);
    assert line[5..] == " c";
    assert Opened(line, 2) == "a \"<<< c";
    QuoteLineFailsWithoutCloser(line, 2);
  }

  /** The 1x branch as written writes a stray '1' after the opening '<'. */
  lemma SingleBranchInsertsDigit()
    ensures Enclose("<a>", 0, Single) == Success("\"<1a>\"")
  {
    var line: seq<char> := "<a>";
    assert line[1..] == "a>";
    var mid: seq<char> := "\"<1a>";
    assert Splice(line, 0, 1, "\"<1") == mid;
    assert FindFirstOf(mid, ">", 4) == Index(4);
    assert FindFirstOf(mid, ">", 3) == Index(4);
    assert FindFirstOf(mid, ">", 2) == Index(4);
    assert Splice(mid, 4, 1, ">\"") == "\"<1a>\"";
  }
}
