/**
  The bracket-quoting rewrite of `do_main` as it is evidently meant to work:
  the opening and closing markers are searched as substrings (`find`, not
  `find_first_of`), the matched span is kept verbatim between two inserted
  quote characters, the 1x branch inserts `"<` (without the stray `1`), and
  a marker with no closing counterpart leaves the line unquoted instead of
  handing `npos` to `replace`.
 */
module MarkerQuoting {
  import opened StdString

  /** `line` with one quote character inserted before index `i` and one before index `j`. */
  function QuoteAround(line: seq<char>, i: nat, j: nat): seq<char>
    requires i <= j <= |line|
  {
    line[..i] + "\"" + line[i..j] + "\"" + line[j..]
  }

  /** `s` without its character at index `i`. */
  function RemoveAt(s: seq<char>, i: nat): (r: seq<char>)
    requires i < |s|
    ensures |r| == |s| - 1
  {
    s[..i] + s[i + 1..]
  }

  /** Dropping the two inserted quotes gives back the line; the span between them is verbatim. */
  lemma QuoteAroundUndo(line: seq<char>, i: nat, j: nat)
    requires i <= j <= |line|
    ensures var r := QuoteAround(line, i, j);
      && |r| == |line| + 2
      && r[i] == '"' && r[j + 1] == '"'
      && r[i + 1..j + 1] == line[i..j]
      && RemoveAt(RemoveAt(r, j + 1), i) == line
  {
    var r := QuoteAround(line, i, j);
    var r1 := RemoveAt(r, j + 1);
    assert r1 == line[..i] + "\"" + line[i..j] + line[j..];
    assert RemoveAt(r1, i) == line[..i] + line[i..j] + line[j..];
    assert line == line[..i] + line[i..j] + line[j..];
  }

  /** Inserting one character at `p` shifts every occurrence at or after `p` by one. */
  lemma {:induction false} FindAfterInsertion(line: seq<char>, p: nat, c: char, pat: seq<char>, from: nat)
    requires p <= from <= |line|
    ensures var mid := line[..p] + [c] + line[p..];
      match Find(line, pat, from)
      case Npos => Find(mid, pat, from + 1).Npos?
      case Index(q) => Find(mid, pat, from + 1) == Index(q + 1)
    decreases |line| - from
  {
    var mid := line[..p] + [c] + line[p..];
    assert mid[from + 1..] == line[from..];
    if from + |pat| <= |line| {
      assert mid[from + 1..from + 1 + |pat|] == line[from..from + |pat|];
      if !OccursAt(line, pat, from) && from < |line| {
        FindAfterInsertion(line, p, c, pat, from + 1);
      }
    }
  }

  /** The first `replace` of a branch only inserts a quote in front of the opening marker. */
  lemma OpenSpliceInserts(line: seq<char>, p: nat, open: seq<char>)
    requires OccursAt(line, open, p)
    ensures Splice(line, p, |open|, "\"" + open) == line[..p] + ['"'] + line[p..]
  {
    assert line[p..] == open + line[p + |open|..];
  }

  /** The second `replace` only inserts a quote after the closing marker found at `q` of `line`. */
  lemma CloseSpliceInserts(line: seq<char>, p: nat, q: nat, close: seq<char>, mid: seq<char>)
    requires p <= q
    requires OccursAt(line, close, q)
    requires mid == line[..p] + ['"'] + line[p..]
    ensures Splice(mid, q + 1, |close|, close + "\"") == QuoteAround(line, p, q + |close|)
  {
    assert mid[..q + 1] == line[..p] + "\"" + line[p..q];
    assert mid[q + 1 + |close|..] == line[q + |close|..];
    assert line[p..q + |close|] == line[p..q] + close;
  }

  /**
    One branch, entered with the position `p` where its opening marker was
    found: a quote goes in front of the opening marker and another after the
    first closing marker that follows it; without a closing marker the line
    is left as it is.
   */
  function EncloseSpan(line: seq<char>, p: nat, open: seq<char>, close: seq<char>): (r: seq<char>)
    requires OccursAt(line, open, p)
    ensures r == line || |r| == |line| + 2
  {
    var mid := Splice(line, p, |open|, "\"" + open);
    match Find(mid, close, p + 1 + |open|)
    case Npos => line
    case Index(q) => Splice(mid, q, |close|, close + "\"")
  }

  /** Without a closing marker after the opening one, a branch returns the line unchanged. */
  lemma EncloseSpanUnterminated(line: seq<char>, p: nat, open: seq<char>, close: seq<char>, mid: seq<char>)
    requires OccursAt(line, open, p)
    requires Splice(line, p, |open|, "\"" + open) == mid
    requires Find(mid, close, p + 1 + |open|).Npos?
    ensures EncloseSpan(line, p, open, close) == line
  {
  }

  /** With a closing marker at `q` of the intermediate line, a branch performs the second splice there. */
  lemma EncloseSpanTerminated(line: seq<char>, p: nat, open: seq<char>, close: seq<char>, mid: seq<char>, q: nat)
    requires OccursAt(line, open, p)
    requires Splice(line, p, |open|, "\"" + open) == mid
    requires Find(mid, close, p + 1 + |open|) == Index(q)
    ensures EncloseSpan(line, p, open, close) == Splice(mid, q, |close|, close + "\"")
  {
  }

  /** A branch whose opening marker has no closing marker after it leaves the line alone. */
  lemma EncloseSpanKeepsUnterminated(line: seq<char>, p: nat, open: seq<char>, close: seq<char>)
    requires OccursAt(line, open, p)
    requires Find(line, close, p + |open|).Npos?
    ensures EncloseSpan(line, p, open, close) == line
  {
    var mid := line[..p] + ['"'] + line[p..];
    OpenSpliceInserts(line, p, open);
    FindAfterInsertion(line, p, '"', close, p + |open|);
    EncloseSpanUnterminated(line, p, open, close, mid);
  }

  /**
    A branch whose first closing marker after the opening one is at `q`
    quotes the span from the opening marker to the end of that closing marker.
   */
  lemma EncloseSpanQuotesField(line: seq<char>, p: nat, open: seq<char>, close: seq<char>, q: nat)
    requires OccursAt(line, open, p)
    requires Find(line, close, p + |open|) == Index(q)
    ensures q + |close| <= |line|
    ensures EncloseSpan(line, p, open, close) == QuoteAround(line, p, q + |close|)
  {
    var mid := line[..p] + ['"'] + line[p..];
    OpenSpliceInserts(line, p, open);
    ShiftedClose(line, p, open, close, q, mid);
    EncloseSpanTerminated(line, p, open, close, mid, q + 1);
    CloseSpliceInserts(line, p, q, close, mid);
  }

  /** The closing marker found in the line is found one place later once the opening quote is in. */
  lemma ShiftedClose(line: seq<char>, p: nat, open: seq<char>, close: seq<char>, q: nat, mid: seq<char>)
    requires OccursAt(line, open, p)
    requires Find(line, close, p + |open|) == Index(q)
    requires mid == line[..p] + ['"'] + line[p..]
    ensures p <= q && OccursAt(line, close, q)
    ensures Find(mid, close, p + 1 + |open|) == Index(q + 1)
  {
    FindAfterInsertion(line, p, '"', close, p + |open|);
  }

  /** Either case of a branch: the line is kept, or exactly the opening-to-closing span is quoted. */
  lemma EncloseSpanQuotes(line: seq<char>, p: nat, open: seq<char>, close: seq<char>)
    requires OccursAt(line, open, p)
    ensures var r := EncloseSpan(line, p, open, close);
      r == line || exists j: nat | p <= j <= |line| :: r == QuoteAround(line, p, j)
  {
    match Find(line, close, p + |open|)
    case Npos => EncloseSpanKeepsUnterminated(line, p, open, close);
    case Index(q) =>
      EncloseSpanQuotesField(line, p, open, close, q);
      assert EncloseSpan(line, p, open, close) == QuoteAround(line, p, q + |close|);
  }

  /** A line without '<' holds no opening marker. */
  lemma NoAngleNoOpener(line: seq<char>, open: seq<char>)
    requires |open| > 0 && open[0] == '<'
    ensures '<' !in line ==> Find(line, open, 0).Npos?
  {
    var f := Find(line, open, 0);
    if f.Index? {
      assert line[f.i..f.i + |open|][0] == '<';
    }
  }

  /**
    The corrected if / else-if chain: the longest opening marker present
    decides the branch, and the line is either unchanged or gains exactly
    two quote characters around a span that runs from that opening marker
    to the end of a closing marker.
   */
  function QuoteMarkers(line: seq<char>): (r: seq<char>)
    ensures '<' !in line ==> r == line
    ensures r == line || exists i: nat, j: nat | i <= j <= |line| :: r == QuoteAround(line, i, j)
  {
    NoAngleNoOpener(line, "<<<");
    NoAngleNoOpener(line, "<<");
    NoAngleNoOpener(line, "<");
    match Find(line, "<<<", 0)
    case Index(p) => EncloseSpanQuotes(line, p, "<<<", ">>>"); EncloseSpan(line, p, "<<<", ">>>")
    case Npos =>
      match Find(line, "<<", 0)
      case Index(p) => EncloseSpanQuotes(line, p, "<<", ">>"); EncloseSpan(line, p, "<<", ">>")
      case Npos =>
        match Find(line, "<", 0)
        case Index(p) => EncloseSpanQuotes(line, p, "<", ">"); EncloseSpan(line, p, "<", ">")
        case Npos => line
  }

  /** A terminated `<<<...>>>` field is enclosed in quotes verbatim. */
  lemma TripleMarkerQuoted(line: seq<char>, p: nat, q: nat)
    requires Find(line, "<<<", 0) == Index(p)
    requires Find(line, ">>>", p + 3) == Index(q)
    ensures QuoteMarkers(line) == QuoteAround(line, p, q + 3)
    ensures QuoteMarkers(line)[p + 1..q + 4] == line[p..q + 3]
  {
    EncloseSpanQuotesField(line, p, "<<<", ">>>", q);
    QuoteAroundUndo(line, p, q + 3);
  }

  /** An opening marker without a closing one leaves the line unquoted. */
  lemma UnterminatedMarkerLeavesLine(line: seq<char>, p: nat)
    requires Find(line, "<<<", 0) == Index(p)
    requires Find(line, ">>>", p + 3).Npos?
    ensures QuoteMarkers(line) == line
  {
    EncloseSpanKeepsUnterminated(line, p, "<<<", ">>>");
  }

  /** The 2x branch runs only when the line holds no `<<<`, and then at the first `<<`. */
  lemma DoubleMarkerQuoted(line: seq<char>, p: nat, q: nat)
    requires Find(line, "<<<", 0).Npos?
    requires Find(line, "<<", 0) == Index(p)
    requires Find(line, ">>", p + 2) == Index(q)
    ensures QuoteMarkers(line) == QuoteAround(line, p, q + 2)
  {
    EncloseSpanQuotesField(line, p, "<<", ">>", q);
  }

  /** The 1x branch runs only when the line holds neither `<<<` nor `<<`, and then at the first `<`. */
  lemma SingleMarkerQuoted(line: seq<char>, p: nat, q: nat)
    requires Find(line, "<<<", 0).Npos? && Find(line, "<<", 0).Npos?
    requires Find(line, "<", 0) == Index(p)
    requires Find(line, ">", p + 1) == Index(q)
    ensures QuoteMarkers(line) == QuoteAround(line, p, q + 1)
  {
    EncloseSpanQuotesField(line, p, "<", ">", q);
  }

  /** The searches the corrected rewrite performs on `<<x>>`. */
  lemma DoubleFieldSearches(line: seq<char>)
    requires line == "<<x>>"
    ensures Find(line, "<<<", 0).Npos? && Find(line, "<<", 0) == Index(0)
    ensures Find(line, ">>", 2) == Index(3)
  {
    forall k | 0 <= k <= |line| ensures !OccursAt(line, "<<<", k) {
      if k + 3 <= |line| {
        assert line[k..k + 3][2] == line[k + 2];
      }
    }
    FindNone(line, "<<<", 0);
    assert line[0..2] == "<<";
    FindIs(line, "<<", 0, 0);
    assert line[3..5] == ">>" && line[2..4][0] == 'x';
    FindIs(line, ">>", 2, 3);
  }

  /** Where the as-written rewrite loses the content of `<<x>>`, the corrected one quotes it whole. */
  lemma CorrectedKeepsDoubleField(line: seq<char>)
    requires line == "<<x>>"
    ensures QuoteMarkers(line) == "\"<<x>>\""
  {
    DoubleFieldSearches(line);
    DoubleMarkerQuoted(line, 0, 3);
    QuotedWhole(line);
  }

  /** Quoting a whole line puts one quote at each end. */
  lemma QuotedWhole(line: seq<char>)
    ensures QuoteAround(line, 0, |line|) == "\"" + line + "\""
  {
    assert line[..0] == [] && line[0..|line|] == line && line[|line|..] == [];
  }

  /** The searches the corrected rewrite performs on `a <b> c`. */
  lemma SingleFieldSearches(line: seq<char>)
    requires line == "a <b> c"
    ensures Find(line, "<<<", 0).Npos? && Find(line, "<<", 0).Npos?
    ensures Find(line, "<", 0) == Index(2) && Find(line, ">", 3) == Index(4)
  {
    forall k | 0 <= k <= |line| ensures !OccursAt(line, "<<", k) {
      if k + 2 <= |line| {
        assert line[k..k + 2][0] == line[k] && line[k..k + 2][1] == line[k + 1];
      }
    }
    forall k | 0 <= k <= |line| ensures !OccursAt(line, "<<<", k) {
      if k + 3 <= |line| {
        assert line[k..k + 3][0] == line[k] && line[k..k + 3][1] == line[k + 1];
      }
    }
    FindNone(line, "<<<", 0);
    FindNone(line, "<<", 0);
    OccursAtSingle(line, "<", 0);
    OccursAtSingle(line, "<", 1);
    OccursAtSingle(line, "<", 2);
    FindIs(line, "<", 0, 2);
    OccursAtSingle(line, ">", 3);
    OccursAtSingle(line, ">", 4);
    FindIs(line, ">", 3, 4);
  }

  /** Where the as-written rewrite throws on `a <b> c`, the corrected one quotes `<b>`. */
  lemma CorrectedKeepsSingleField(line: seq<char>)
    requires line == "a <b> c"
    ensures QuoteMarkers(line) == "a \"<b>\" c"
  {
    SingleFieldSearches(line);
    SingleMarkerQuoted(line, 2, 4);
    SingleFieldSpelled(line);
  }

  lemma SingleFieldSpelled(line: seq<char>)
    requires line == "a <b> c"
    ensures QuoteAround(line, 2, 5) == "a \"<b>\" c"
  {
    assert line[..2] == "a " && line[2..5] == "<b>" && line[5..] == " c";
  }

  /** The corrected 1x branch inserts only the two quotes. */
  lemma CorrectedSingleBranchInsertsNoDigit(line: seq<char>)
    requires line == "<a>"
    ensures EncloseSpan(line, 0, "<", ">") == "\"<a>\""
  {
    OccursAtSingle(line, "<", 0);
    OccursAtSingle(line, ">", 1);
    OccursAtSingle(line, ">", 2);
    FindIs(line, ">", 1, 2);
    EncloseSpanQuotesField(line, 0, "<", ">", 2);
    QuotedWhole(line);
  }
}
