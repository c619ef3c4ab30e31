/**
  The few members of `std::string` that the line-quoting code relies on,
  modelled on `seq<char>`. A position returned by a search is either an
  index or `npos`; since `npos` is larger than any string size, handing it
  to `replace` raises `std::out_of_range`. Each `char` of a sequence is one
  byte (`char` of the C++ string, values 0..255); positions and counts are
  byte offsets, so a multi-byte UTF-8 character occupies several elements.
 */
module StdString {
  import opened Results

  /** A `size_t` position produced by a search member: an index, or `npos`. */
  datatype Pos = Index(i: nat) | Npos

  /** The exception `replace` throws when its position lies past the end. */
  datatype StringError = OutOfRange

  function Min(a: int, b: int): int
  {
    if a <= b then a else b
  }

  /** `s.substr(0, n)`: position 0 never exceeds the size, so this never throws. */
  function Prefix(s: seq<char>, n: nat): (r: seq<char>)
    ensures |r| == Min(n, |s|)
    ensures r <= s
  {
    s[..Min(n, |s|)]
  }

  /** Comparing `s.substr(0, |w|)` with `w` is exactly a prefix test. */
  lemma PrefixEqualsIffStartsWith(s: seq<char>, w: seq<char>)
    ensures Prefix(s, |w|) == w <==> w <= s
  {
  }

  /**
    `s.find_first_of(chars, from)`: the first index at or after `from`
    whose character is ANY of the characters of `chars` (a character set,
    not a substring), or `npos` when there is none.
   */
  function FindFirstOf(s: seq<char>, chars: seq<char>, from: nat): (r: Pos)
    ensures r.Index? ==> from <= r.i < |s| && s[r.i] in chars
    ensures r.Index? ==> forall k | from <= k < r.i :: s[k] !in chars
    ensures r.Npos? ==> forall k | from <= k < |s| :: s[k] !in chars
    decreases |s| - from
  {
    if from >= |s| then Npos
    else if s[from] in chars then Index(from)
    else FindFirstOf(s, chars, from + 1)
  }

  /** Two arguments naming the same set of characters give the same search. */
  lemma {:induction false} FindFirstOfSameCharacters(s: seq<char>, a: seq<char>, b: seq<char>, from: nat)
    requires forall c :: c in a <==> c in b
    ensures FindFirstOf(s, a, from) == FindFirstOf(s, b, from)
    decreases |s| - from
  {
    if from < |s| && s[from] !in a {
      FindFirstOfSameCharacters(s, a, b, from + 1);
    }
  }

  /** `pat` occurs in `s` starting at index `k`. */
  predicate OccursAt(s: seq<char>, pat: seq<char>, k: nat)
  {
    k + |pat| <= |s| && s[k..k + |pat|] == pat
  }

  /** `s.find(pat, from)`: the first index at or after `from` where `pat` occurs as a substring. */
  function Find(s: seq<char>, pat: seq<char>, from: nat): (r: Pos)
    ensures r.Index? ==> from <= r.i && OccursAt(s, pat, r.i)
    ensures r.Index? ==> forall k | from <= k < r.i :: !OccursAt(s, pat, k)
    ensures r.Npos? ==> forall k | from <= k :: !OccursAt(s, pat, k)
    decreases |s| - from
  {
    if from + |pat| > |s| then Npos
    else if OccursAt(s, pat, from) then Index(from)
    else Find(s, pat, from + 1)
  }

  /** A one-character pattern occurs exactly where that character is. */
  lemma OccursAtSingle(s: seq<char>, pat: seq<char>, k: nat)
    requires |pat| == 1
    ensures OccursAt(s, pat, k) <==> k < |s| && s[k] == pat[0]
  {
    if k < |s| {
      assert s[k..k + 1] == [s[k]];
    }
  }

  /** The search result is pinned down by where the pattern does and does not occur. */
  lemma FindIs(s: seq<char>, pat: seq<char>, from: nat, q: nat)
    requires from <= q && OccursAt(s, pat, q)
    requires forall k | from <= k < q :: !OccursAt(s, pat, k)
    ensures Find(s, pat, from) == Index(q)
  {
  }

  lemma FindNone(s: seq<char>, pat: seq<char>, from: nat)
    requires forall k | from <= k <= |s| :: !OccursAt(s, pat, k)
    ensures Find(s, pat, from).Npos?
  {
  }

  /**
    The string `replace(i, count, t)` leaves behind when `i` is in range:
    `count` is clamped to the characters that remain after `i`.
   */
  function Splice(s: seq<char>, i: nat, count: nat, t: seq<char>): (r: seq<char>)
    requires i <= |s|
    ensures |r| == |s| - Min(count, |s| - i) + |t|
    ensures r[..i] == s[..i]
    ensures r[i..i + |t|] == t
    ensures r[i + |t|..] == s[i + Min(count, |s| - i)..]
  {
    s[..i] + t + s[i + Min(count, |s| - i)..]
  }

  /** `s.replace(pos, count, t)`: throws `out_of_range` when `pos` is past the end (`npos` always is). */
  function Replace(s: seq<char>, pos: Pos, count: nat, t: seq<char>): (r: Result<seq<char>, StringError>)
    ensures r.Failure? <==> pos.Npos? || pos.i > |s|
    ensures r.Success? ==> r.value == Splice(s, pos.i, count, t)
  {
    match pos
    case Npos => Failure(OutOfRange)
    case Index(i) => if i > |s| then Failure(OutOfRange) else Success(Splice(s, i, count, t))
  }

  /** Replacing the inserted text by the text that was removed restores the original string. */
  lemma SpliceUndo(s: seq<char>, i: nat, count: nat, t: seq<char>)
    requires i <= |s|
    ensures Splice(Splice(s, i, count, t), i, |t|, s[i..i + Min(count, |s| - i)]) == s
  {
    var r := Splice(s, i, count, t);
    var c := Min(count, |s| - i);
    assert Min(|t|, |r| - i) == |t|;
    assert r[i + |t|..] == s[i + c..];
    assert s == s[..i] + s[i..i + c] + s[i + c..];
  }
}
