/**
 * Ruby's `String#split(' ')`: awk-style splitting. Runs of ASCII whitespace separate
 * the words; leading and trailing whitespace produce no empty word.
 */
module RubySplit {

  /** The characters Ruby's awk-style split treats as whitespace. */
  predicate IsSpace(c: char) {
    c == ' ' || c == '\t' || c == '\n' || c == '\U{B}' || c == '\U{C}' || c == '\r'
  }

  predicate NoSpace(s: string) {
    forall i :: 0 <= i < |s| ==> !IsSpace(s[i])
  }

  predicate AllSpace(s: string) {
    forall i :: 0 <= i < |s| ==> IsSpace(s[i])
  }

  /** A word as the split yields it: non-empty and whitespace-free. */
  predicate IsWord(w: string) {
    w != [] && NoSpace(w)
  }

  /** Every element of `ws` is a word. */
  predicate AllWords(ws: seq<string>) {
    forall i :: 0 <= i < |ws| ==> IsWord(ws[i])
  }

  /** How many whitespace characters `s` starts with. */
  function LeadingSpaces(s: string): (k: nat)
    ensures k <= |s|
    ensures k < |s| ==> !IsSpace(s[k])
  {
    if s == [] || !IsSpace(s[0]) then 0 else 1 + LeadingSpaces(s[1..])
  }

  lemma {:induction false} LeadingSpacesAreSpaces(s: string)
    ensures AllSpace(s[..LeadingSpaces(s)])
  {
    if s != [] && IsSpace(s[0]) {
      LeadingSpacesAreSpaces(s[1..]);
      assert s[..LeadingSpaces(s)] == [s[0]] + s[1..][..LeadingSpaces(s[1..])];
    }
  }

  /** The length of the longest whitespace-free prefix of `s`. */
  function WordLength(s: string): (n: nat)
    ensures n <= |s|
    ensures s != [] && !IsSpace(s[0]) ==> n > 0
  {
    if s == [] || IsSpace(s[0]) then 0 else 1 + WordLength(s[1..])
  }

  lemma {:induction false} WordLengthIsWhole(s: string)
    ensures NoSpace(s[..WordLength(s)])
    ensures WordLength(s) == |s| || IsSpace(s[WordLength(s)])
  {
    if s != [] && !IsSpace(s[0]) {
      WordLengthIsWhole(s[1..]);
      assert s[..WordLength(s)] == [s[0]] + s[1..][..WordLength(s[1..])];
    }
  }

  /** `s.split(' ')`: the whitespace-separated words of `s`, left to right. */
  function Split(s: string): (ws: seq<string>)
    ensures AllWords(ws)
    decreases |s|, 1
  {
    SplitWords(s[LeadingSpaces(s)..])
  }

  /** The words of `t`, which starts with a word (or is empty). */
  function SplitWords(t: string): (ws: seq<string>)
    requires t == [] || !IsSpace(t[0])
    ensures AllWords(ws)
    decreases |t|, 0
  {
    if t == [] then []
    else
      var n := WordLength(t);
      WordLengthIsWhole(t);
      assert IsWord(t[..n]);
      [t[..n]] + Split(t[n..])
  }

  /** The words joined back with one space between each two. */
  function JoinWithSpace(ws: seq<string>): string {
    if ws == [] then ""
    else if |ws| == 1 then ws[0]
    else ws[0] + " " + JoinWithSpace(ws[1..])
  }

  /** `s` with every whitespace character removed. */
  function Squeeze(s: string): (r: string) {
    if s == [] then ""
    else if IsSpace(s[0]) then Squeeze(s[1..])
    else [s[0]] + Squeeze(s[1..])
  }

  /** All the words, concatenated. */
  function Concat(ws: seq<string>): string {
    if ws == [] then "" else ws[0] + Concat(ws[1..])
  }

  lemma {:induction false} LeadingSpacesOfSpaces(sp: string, s: string)
    requires AllSpace(sp)
    ensures LeadingSpaces(sp + s) == |sp| + LeadingSpaces(s)
  {
    if sp == [] {
      assert sp + s == s;
    } else {
      assert IsSpace((sp + s)[0]);
      assert (sp + s)[1..] == sp[1..] + s;
      LeadingSpacesOfSpaces(sp[1..], s);
    }
  }

  /** Leading whitespace is ignored by the split. */
  lemma {:induction false} SplitIgnoresLeadingSpace(sp: string, s: string)
    requires AllSpace(sp)
    ensures Split(sp + s) == Split(s)
  {
    LeadingSpacesOfSpaces(sp, s);
    assert (sp + s)[|sp| + LeadingSpaces(s)..] == s[LeadingSpaces(s)..];
  }

  lemma {:induction false} WordLengthOfWord(w: string, rest: string)
    requires NoSpace(w)
    requires rest == [] || IsSpace(rest[0])
    ensures WordLength(w + rest) == |w|
  {
    if w == [] {
      assert w + rest == rest;
    } else {
      assert (w + rest)[1..] == w[1..] + rest;
      WordLengthOfWord(w[1..], rest);
    }
  }

  /**
   * A word that ends at whitespace (or at the end) is the first word, and the split
   * carries on from there; together with `SplitIgnoresLeadingSpace` this is why
   * repeated separators yield no empty words.
   */
  lemma {:induction false} SplitWordFirst(w: string, rest: string)
    requires IsWord(w)
    requires rest == [] || IsSpace(rest[0])
    ensures Split(w + rest) == [w] + Split(rest)
  {
    var s := w + rest;
    assert s[0] == w[0];
    assert LeadingSpaces(s) == 0;
    WordLengthOfWord(w, rest);
    assert s[0..] == s;
    assert s[..|w|] == w;
    assert s[|w|..] == rest;
  }

  /**
   * The shape of an Authorization header: optional leading whitespace, a word, a
   * whitespace run, a second word, and whatever follows after more whitespace.
   */
  lemma {:induction false} SplitTwoWords(lead: string, w1: string, sep: string, w2: string, rest: string)
    requires AllSpace(lead) && IsWord(w1) && sep != [] && AllSpace(sep) && IsWord(w2)
    requires rest == [] || IsSpace(rest[0])
    ensures Split(lead + w1 + sep + w2 + rest) == [w1, w2] + Split(rest)
  {
    var tail := sep + w2 + rest;
    assert lead + w1 + sep + w2 + rest == lead + w1 + tail;
    assert tail[0] == sep[0];
    SplitPaddedWord(lead, w1, tail);
    SplitPaddedWord(sep, w2, rest);
    assert [w1] + ([w2] + Split(rest)) == [w1, w2] + Split(rest);
  }

  /** A word after leading whitespace is the first piece. */
  lemma {:induction false} SplitPaddedWord(lead: string, w: string, rest: string)
    requires AllSpace(lead) && IsWord(w)
    requires rest == [] || IsSpace(rest[0])
    ensures Split(lead + w + rest) == [w] + Split(rest)
  {
    assert lead + w + rest == lead + (w + rest);
    SplitIgnoresLeadingSpace(lead, w + rest);
    SplitWordFirst(w, rest);
  }

  /** Splitting undoes joining with single spaces, for words that are non-empty and whitespace-free. */
  lemma {:induction false} SplitJoin(ws: seq<string>)
    requires AllWords(ws)
    ensures Split(JoinWithSpace(ws)) == ws
  {
    if ws == [] {
    } else if |ws| == 1 {
      assert IsWord(ws[0]);
      SplitWordFirst(ws[0], []);
      assert ws[0] + [] == ws[0];
    } else {
      var tail := JoinWithSpace(ws[1..]);
      assert IsWord(ws[0]);
      assert AllWords(ws[1..]) by {
        forall i | 0 <= i < |ws| - 1 ensures IsWord(ws[1..][i]) { assert ws[1..][i] == ws[i + 1]; }
      }
      SplitJoin(ws[1..]);
      SplitPaddedWord([], ws[0], " " + tail);
      assert [] + ws[0] + (" " + tail) == ws[0] + " " + tail;
      assert ws == [ws[0]] + ws[1..];
    }
  }

  lemma {:induction false} SqueezeAppend(a: string, b: string)
    ensures Squeeze(a + b) == Squeeze(a) + Squeeze(b)
  {
    if a == [] {
      assert a + b == b;
    } else {
      assert (a + b)[1..] == a[1..] + b;
      SqueezeAppend(a[1..], b);
    }
  }

  lemma {:induction false} SqueezeOfSpaces(s: string)
    requires AllSpace(s)
    ensures Squeeze(s) == ""
  {
    if s != [] { SqueezeOfSpaces(s[1..]); }
  }

  lemma {:induction false} SqueezeOfWord(s: string)
    requires NoSpace(s)
    ensures Squeeze(s) == s
  {
    if s != [] { SqueezeOfWord(s[1..]); }
  }

  lemma {:induction false} SqueezeSkipsLeadingSpaces(s: string)
    ensures Squeeze(s) == Squeeze(s[LeadingSpaces(s)..])
  {
    var k := LeadingSpaces(s);
    assert s == s[..k] + s[k..];
    LeadingSpacesAreSpaces(s);
    SqueezeAppend(s[..k], s[k..]);
    SqueezeOfSpaces(s[..k]);
  }

  lemma {:induction false} SqueezeFirstWord(t: string)
    ensures Squeeze(t) == t[..WordLength(t)] + Squeeze(t[WordLength(t)..])
  {
    var n := WordLength(t);
    WordLengthIsWhole(t);
    assert t == t[..n] + t[n..];
    SqueezeAppend(t[..n], t[n..]);
    SqueezeOfWord(t[..n]);
  }

  /** The words hold every non-whitespace character of the input, in order, and nothing else. */
  lemma {:induction false} SplitKeepsAllNonSpace(s: string)
    ensures Concat(Split(s)) == Squeeze(s)
    decreases |s|
  {
    var t := s[LeadingSpaces(s)..];
    SqueezeSkipsLeadingSpaces(s);
    if t != [] {
      var n := WordLength(t);
      SqueezeFirstWord(t);
      SplitKeepsAllNonSpace(t[n..]);
      assert Split(s) == [t[..n]] + Split(t[n..]);
    }
  }
}
