/**
  The relationship prefix that precedes each node in the AST dump: the
  language of the anchored pattern `^((\| )|( \|)|(  ))*(\|-|`-)$`, that is
  zero or more two-character filler units followed by one two-character
  terminator. It is stated three ways, proved to agree: as a regular
  decomposition (`InPatternLanguage`), as an inductive predicate that
  peels one unit at a time (`Matches`), and as an executable check of the
  two-character blocks (`CheckPairs`).
 */
module PrefixGrammar {

  /** One level of nesting: `"| "`, `" |"` or two spaces. */
  predicate IsFiller(u: string)
  {
    u == "| " || u == " |" || u == "  "
  }

  /** The closing unit: `"|-"` (a sibling follows) or `` "`-" `` (last child). */
  predicate IsTerminator(u: string)
  {
    u == "|-" || u == "`-"
  }

  function Concat(units: seq<string>): string
  {
    if |units| == 0 then [] else units[0] + Concat(units[1..])
  }

  predicate AllFillers(units: seq<string>)
  {
    forall i | 0 <= i < |units| :: IsFiller(units[i])
  }

  /** `s` is the concatenation of the filler units `fillers` and the terminator `t`. */
  predicate Decomposes(s: string, fillers: seq<string>, t: string)
  {
    AllFillers(fillers) && IsTerminator(t) && s == Concat(fillers) + t
  }

  /** The pattern's language: some sequence of fillers, then a terminator, and nothing else. */
  ghost predicate InPatternLanguage(s: string)
  {
    exists fillers: seq<string>, t: string :: Decomposes(s, fillers, t)
  }

  /** The same language, one unit at a time from the front. */
  predicate Matches(s: string)
    decreases |s|
  {
    if |s| < 2 then false
    else if |s| == 2 then IsTerminator(s)
    else IsFiller(s[..2]) && Matches(s[2..])
  }

  /** A filler in front of a decomposed string extends its decomposition. */
  lemma ConsDecomposes(u: string, s: string, fillers: seq<string>, t: string)
    requires IsFiller(u) && Decomposes(s, fillers, t)
    ensures Decomposes(u + s, [u] + fillers, t)
  {
    assert ([u] + fillers)[1..] == fillers;
  }

  /** The filler units of a matching string, in order. */
  function Units(s: string): (fillers: seq<string>)
    requires Matches(s)
    ensures |fillers| == (|s| - 2) / 2
    ensures AllFillers(fillers)
    decreases |s|
  {
    if |s| == 2 then [] else [s[..2]] + Units(s[2..])
  }

  /** The units, followed by the last two characters, spell the string back. */
  lemma {:induction false} UnitsDecompose(s: string)
    requires Matches(s)
    ensures Decomposes(s, Units(s), s[|s| - 2..])
    decreases |s|
  {
    if |s| > 2 {
      var r := s[2..];
      UnitsDecompose(r);
      assert r[|r| - 2..] == s[|s| - 2..];
      ConsDecomposes(s[..2], r, Units(r), s[|s| - 2..]);
      assert s[..2] + r == s;
    }
  }

  lemma {:induction false} DecomposedMatches(s: string, fillers: seq<string>, t: string)
    requires Decomposes(s, fillers, t)
    ensures Matches(s)
    ensures fillers == Units(s) && t == s[|s| - 2..]
    decreases |fillers|
  {
    if |fillers| > 0 {
      var rest := Concat(fillers[1..]) + t;
      assert s == fillers[0] + rest;
      assert s[..2] == fillers[0] && s[2..] == rest;
      DecomposedMatches(rest, fillers[1..], t);
      assert fillers == [fillers[0]] + fillers[1..];
    }
  }

  /** The inductive predicate and the pattern define the same language. */
  lemma MatchesIffPattern(s: string)
    ensures Matches(s) <==> InPatternLanguage(s)
  {
    if Matches(s) {
      UnitsDecompose(s);
    }
    if InPatternLanguage(s) {
      var fillers: seq<string>, t: string :| Decomposes(s, fillers, t);
      DecomposedMatches(s, fillers, t);
    }
  }

  /**
    A match splits into units in exactly one way, with exactly (|s| - 2) / 2
    fillers before the terminator.
   */
  lemma DecompositionIsUnique(s: string, f1: seq<string>, t1: string, f2: seq<string>, t2: string)
    requires Decomposes(s, f1, t1) && Decomposes(s, f2, t2)
    ensures f1 == f2 && t1 == t2
    ensures |f1| == (|s| - 2) / 2
  {
    DecomposedMatches(s, f1, t1);
    DecomposedMatches(s, f2, t2);
  }

  /** The two-character block that starts at offset `2 * k`. */
  function Block(s: string, k: nat): string
    requires 2 * k + 2 <= |s|
  {
    s[2 * k..2 * k + 2]
  }

  /** The block-by-block reading: even length, fillers in every block but the last, a terminator last. */
  predicate BlockwiseMatch(s: string)
  {
    && |s| >= 2 && |s| % 2 == 0
    && (forall k: nat | k < |s| / 2 - 1 :: IsFiller(Block(s, k)))
    && IsTerminator(s[|s| - 2..])
  }

  lemma {:induction false} MatchesIffBlockwise(s: string)
    ensures Matches(s) <==> BlockwiseMatch(s)
    decreases |s|
  {
    if |s| > 2 {
      var r := s[2..];
      MatchesIffBlockwise(r);
      assert forall k: nat | 2 * k + 2 <= |r| :: Block(r, k) == Block(s, k + 1);
      assert Block(s, 0) == s[..2];
      if |r| >= 2 {
        assert r[|r| - 2..] == s[|s| - 2..];
      }
      if BlockwiseMatch(s) {
        assert forall k: nat | k < |r| / 2 - 1 :: IsFiller(Block(r, k)) by {
          forall k: nat | k < |r| / 2 - 1 ensures IsFiller(Block(r, k)) {
            assert IsFiller(Block(s, k + 1));
          }
        }
      }
      if Matches(s) {
        forall k: nat | k < |s| / 2 - 1 ensures IsFiller(Block(s, k)) {
          if k > 0 {
            assert Block(s, k) == Block(r, k - 1);
          }
        }
      }
    }
  }

  /** A filler unit, given by its two characters. */
  predicate FillerPair(a: char, b: char)
  {
    (a == '|' && b == ' ') || (a == ' ' && b == '|') || (a == ' ' && b == ' ')
  }

  /** A terminator unit, given by its two characters. */
  predicate TerminatorPair(a: char, b: char)
  {
    (a == '|' || a == '`') && b == '-'
  }

  /**
    The executable check: walk the string two characters at a time from
    index `i`, accepting fillers until exactly two characters remain,
    which must form a terminator.
   */
  predicate CheckPairs(s: string, i: nat)
    decreases |s| - i
  {
    if i + 2 > |s| then false
    else if i + 2 == |s| then TerminatorPair(s[i], s[i + 1])
    else FillerPair(s[i], s[i + 1]) && CheckPairs(s, i + 2)
  }

  lemma {:induction false} CheckPairsIffMatches(s: string, i: nat)
    requires i <= |s|
    ensures CheckPairs(s, i) <==> Matches(s[i..])
    decreases |s| - i
  {
    if i + 2 <= |s| {
      var r := s[i..];
      assert r[..2] == [s[i], s[i + 1]];
      assert IsFiller(r[..2]) <==> FillerPair(s[i], s[i + 1]);
      assert IsTerminator(r[..2]) <==> TerminatorPair(s[i], s[i + 1]);
      if i + 2 < |s| {
        CheckPairsIffMatches(s, i + 2);
        assert r[2..] == s[i + 2..];
      }
    }
  }

  /** The check run from the start accepts exactly the pattern's language. */
  lemma CheckPairsIffPattern(s: string)
    ensures CheckPairs(s, 0) <==> InPatternLanguage(s)
  {
    CheckPairsIffMatches(s, 0);
    assert s[0..] == s;
    MatchesIffPattern(s);
  }

  /** Every match holds exactly one '-', and it is the last character. */
  lemma {:induction false} SingleDashAtEnd(s: string)
    requires Matches(s)
    ensures s[|s| - 1] == '-'
    ensures forall i | 0 <= i < |s| - 1 :: s[i] != '-'
    decreases |s|
  {
    if |s| > 2 {
      SingleDashAtEnd(s[2..]);
      assert forall i | 2 <= i < |s| - 1 :: s[i] == s[2..][i - 2];
    }
  }

  /** The empty string and strings of filler units alone (no terminator) do not match. */
  lemma {:induction false} FillersAloneRejected(fillers: seq<string>)
    requires AllFillers(fillers)
    ensures !Matches(Concat(fillers))
    decreases |fillers|
  {
    if |fillers| > 0 {
      var s := Concat(fillers);
      assert s == fillers[0] + Concat(fillers[1..]);
      FillersAloneRejected(fillers[1..]);
      if |Concat(fillers[1..])| == 0 {
        assert s == fillers[0];
      } else {
        assert s[2..] == Concat(fillers[1..]);
      }
    }
  }

  /** Because of the anchoring, nothing can be appended to a match. */
  lemma NoProperExtension(s: string, suffix: string)
    requires Matches(s) && |suffix| > 0
    ensures !Matches(s + suffix)
  {
    SingleDashAtEnd(s);
    var w := s + suffix;
    assert w[|s| - 1] == '-';
    if Matches(w) {
      SingleDashAtEnd(w);
    }
  }

  /** One more level of nesting in front keeps a string a match. */
  lemma PrependFiller(u: string, s: string)
    requires IsFiller(u) && Matches(s)
    ensures Matches(u + s)
  {
    assert (u + s)[..2] == u && (u + s)[2..] == s;
  }

  /** The sample prefixes tried against the pattern are all accepted by the check. */
  lemma SamplesAccepted()
    ensures CheckPairs("|-", 0) && CheckPairs("| |-", 0) && CheckPairs("| `-", 0) && CheckPairs("|   |-", 0)
    ensures CheckPairs("|   | |-", 0) && CheckPairs("|   | `-", 0) && CheckPairs("|   |   `-", 0) && CheckPairs("|   |   | `-", 0)
    ensures CheckPairs("|   |     |-", 0) && CheckPairs("|   |     | `-", 0) && CheckPairs("|   |     `-", 0) && CheckPairs("|   |       `-", 0)
    ensures CheckPairs("|   |         |-", 0) && CheckPairs("|   |         | `-", 0) && CheckPairs("|   |         `-", 0) && CheckPairs("|   |           `-", 0)
    ensures CheckPairs("|   `-", 0) && CheckPairs("|     `-", 0) && CheckPairs("|       `-", 0) && CheckPairs("`-", 0)
    ensures CheckPairs("  |-", 0) && CheckPairs("  `-", 0)
  {
  }
}
