/** Level-3 tags: all matches of the pattern `#\w+(-\w+)*` in a post's text,
    as Go's `regexp.FindAllString(content, -1)` returns them (leftmost-first,
    non-overlapping, left to right). The regular expression is replaced by a
    hand-written scanner; the functions below are its specification. */
module Hashtags {

  /** RE2's `\w`: ASCII letters, digits and underscore. */
  predicate IsWordChar(c: char)
  {
    ('a' <= c <= 'z') || ('A' <= c <= 'Z') || ('0' <= c <= '9') || c == '_'
  }

  /** The language of `#\w+(-\w+)*`: a `#`, then word characters and dashes,
      starting and ending with a word character, every dash followed by a
      word character. */
  predicate IsHashtag(t: string)
  {
    && |t| >= 2
    && t[0] == '#'
    && IsWordChar(t[1])
    && IsWordChar(t[|t| - 1])
    && (forall k :: 1 <= k < |t| ==> IsWordChar(t[k]) || t[k] == '-')
    && (forall k :: 1 <= k < |t| - 1 && t[k] == '-' ==> IsWordChar(t[k + 1]))
  }

  /** Position `i` of `s` begins a match: a `#` followed by a word character. */
  predicate StartsTag(s: string, i: nat)
  {
    i + 1 < |s| && s[i] == '#' && IsWordChar(s[i + 1])
  }

  /** A match ending at `e` cannot be extended: neither a word character
      nor a `-` followed by a word character comes next. */
  predicate CannotExtend(s: string, e: nat)
    requires e <= |s|
  {
    e == |s| || (!IsWordChar(s[e]) && !(s[e] == '-' && e + 1 < |s| && IsWordChar(s[e + 1])))
  }

  /** The end of the maximal run of word characters starting at `j`
      (what a greedy `\w+` consumes). */
  function WordEnd(s: string, j: nat): (k: nat)
    requires j <= |s|
    ensures j <= k <= |s|
    ensures forall m :: j <= m < k ==> IsWordChar(s[m])
    ensures k == |s| || !IsWordChar(s[k])
    decreases |s| - j
  {
    if j < |s| && IsWordChar(s[j]) then WordEnd(s, j + 1) else j
  }

  /** Starting right after a word run, the end of the greedy `(-\w+)*`. */
  function SegmentsEnd(s: string, j: nat): (k: nat)
    requires 0 < j <= |s| && IsWordChar(s[j - 1])
    requires j == |s| || !IsWordChar(s[j])
    ensures j <= k <= |s| && IsWordChar(s[k - 1])
    ensures forall m :: j <= m < k ==> IsWordChar(s[m]) || s[m] == '-'
    ensures forall m :: j <= m < k && s[m] == '-' ==> m + 1 < k && IsWordChar(s[m + 1])
    ensures CannotExtend(s, k)
    decreases |s| - j
  {
    if j + 1 < |s| && s[j] == '-' && IsWordChar(s[j + 1]) then SegmentsEnd(s, WordEnd(s, j + 1)) else j
  }

  /** The end of the match that starts at `i`. */
  function TagEnd(s: string, i: nat): (e: nat)
    requires StartsTag(s, i)
    ensures i + 2 <= e <= |s|
  {
    SegmentsEnd(s, WordEnd(s, i + 1))
  }

  /** The matches found by scanning from `i` on, as half-open index ranges. */
  function SpansFrom(s: string, i: nat): (sp: seq<(nat, nat)>)
    requires i <= |s|
    ensures forall k :: 0 <= k < |sp| ==> i <= sp[k].0 < sp[k].1 <= |s|
    ensures forall k :: 0 <= k < |sp| - 1 ==> sp[k].1 <= sp[k + 1].0
    decreases |s| - i
  {
    if i == |s| then []
    else if StartsTag(s, i) then [(i, TagEnd(s, i))] + SpansFrom(s, TagEnd(s, i))
    else SpansFrom(s, i + 1)
  }

  /** The text of each range. */
  function Texts(s: string, sp: seq<(nat, nat)>): seq<string>
    requires forall k :: 0 <= k < |sp| ==> sp[k].0 <= sp[k].1 <= |s|
  {
    seq(|sp|, k requires 0 <= k < |sp| => s[sp[k].0..sp[k].1])
  }

  /** The matches found scanning from `i`. */
  function FindAllFrom(s: string, i: nat): seq<string>
    requires i <= |s|
  {
    Texts(s, SpansFrom(s, i))
  }

  /** `re.FindAllString(s, -1)` for `#\w+(-\w+)*`. */
  function FindAll(s: string): seq<string>
  {
    FindAllFrom(s, 0)
  }

  /** The texts of a range followed by more ranges. */
  lemma TextsCons(s: string, x: (nat, nat), rest: seq<(nat, nat)>)
    requires x.0 <= x.1 <= |s|
    requires forall k :: 0 <= k < |rest| ==> rest[k].0 <= rest[k].1 <= |s|
    ensures Texts(s, [x] + rest) == [s[x.0..x.1]] + Texts(s, rest)
  {
    var sp := [x] + rest;
    var lhs := Texts(s, sp);
    var rhs := [s[x.0..x.1]] + Texts(s, rest);
    assert |lhs| == |rhs|;
    forall k | 0 <= k < |lhs| ensures lhs[k] == rhs[k] {
      if k > 0 {
        assert sp[k] == rest[k - 1];
      }
    }
  }

  /** One scanning step, in terms of the matched texts. */
  lemma FindAllFromStep(s: string, i: nat)
    requires i < |s|
    ensures StartsTag(s, i) ==> FindAllFrom(s, i) == [s[i..TagEnd(s, i)]] + FindAllFrom(s, TagEnd(s, i))
    ensures !StartsTag(s, i) ==> FindAllFrom(s, i) == FindAllFrom(s, i + 1)
  {
    if StartsTag(s, i) {
      var e := TagEnd(s, i);
      var rest := SpansFrom(s, e);
      assert SpansFrom(s, i) == [(i, e)] + rest;
      TextsCons(s, (i, e), rest);
    } else {
      assert SpansFrom(s, i) == SpansFrom(s, i + 1);
    }
  }

  /** Consumes a run of word characters from `j`. */
  method ScanWord(s: string, j: nat) returns (k: nat)
    requires j <= |s|
    ensures k == WordEnd(s, j)
  {
    k := j;
    while k < |s| && IsWordChar(s[k])
      invariant j <= k <= |s|
      invariant WordEnd(s, k) == WordEnd(s, j)
      decreases |s| - k
    {
      k := k + 1;
    }
  }

  /** Consumes the match that starts at `i`: the word run after the `#`,
      then each `-` followed by a word run. */
  method ScanTag(s: string, i: nat) returns (e: nat)
    requires StartsTag(s, i)
    ensures e == TagEnd(s, i)
  {
    e := ScanWord(s, i + 1);
    while e + 1 < |s| && s[e] == '-' && IsWordChar(s[e + 1])
      invariant i + 2 <= e <= |s| && IsWordChar(s[e - 1])
      invariant e == |s| || !IsWordChar(s[e])
      invariant SegmentsEnd(s, e) == TagEnd(s, i)
      decreases |s| - e
    {
      e := ScanWord(s, e + 1);
    }
  }

  /** The scanner that replaces the regular-expression call: it walks `s`
      left to right; at a `#` followed by a word character it consumes the
      match, records it and resumes after it; anywhere else it moves one
      character on. */
  method ExtractHashtags(s: string) returns (tags: seq<string>)
    ensures tags == FindAll(s)
  {
    tags := [];
    var i := 0;
    while i < |s|
      invariant 0 <= i <= |s|
      invariant FindAll(s) == tags + FindAllFrom(s, i)
      decreases |s| - i
    {
      FindAllFromStep(s, i);
      if i + 1 < |s| && s[i] == '#' && IsWordChar(s[i + 1]) {
        var e := ScanTag(s, i);
        tags := tags + [s[i..e]];
        i := e;
      } else {
        i := i + 1;
      }
    }
  }

  /** Every match is a hashtag in the pattern's language. */
  lemma MatchIsHashtag(s: string, i: nat)
    requires StartsTag(s, i)
    ensures IsHashtag(s[i..TagEnd(s, i)])
  {
    var w := WordEnd(s, i + 1);
    var t := s[i..TagEnd(s, i)];
    forall k | 1 <= k < |t| ensures t[k] == s[i + k] && (IsWordChar(t[k]) || t[k] == '-') {
      if i + k < w { } else { }
    }
  }

  /** Every match is the longest hashtag starting at its position (the
      greedy `\w+` and `(-\w+)*`). */
  lemma MatchIsMaximal(s: string, i: nat, e': nat)
    requires StartsTag(s, i)
    requires TagEnd(s, i) < e' <= |s|
    ensures !IsHashtag(s[i..e'])
  {
    var e := TagEnd(s, i);
    var t' := s[i..e'];
    assert CannotExtend(s, e);
    assert t'[e - i] == s[e];
    if e + 1 < e' {
      assert t'[e - i + 1] == s[e + 1];
    } else {
      assert t'[|t'| - 1] == s[e];
    }
  }

  /** Both together. */
  lemma MatchIsMaximalHashtag(s: string, i: nat)
    requires StartsTag(s, i)
    ensures IsHashtag(s[i..TagEnd(s, i)])
    ensures forall e :: TagEnd(s, i) < e <= |s| ==> !IsHashtag(s[i..e])
  {
    MatchIsHashtag(s, i);
    forall e | TagEnd(s, i) < e <= |s| ensures !IsHashtag(s[i..e]) {
      MatchIsMaximal(s, i, e);
    }
  }

  /** Inside a match there is no `#`: every character after the first is a
      word character or a dash. */
  lemma InsideMatch(s: string, i: nat, m: nat)
    requires StartsTag(s, i)
    requires i < m < TagEnd(s, i)
    ensures s[m] != '#'
  {
    if m >= WordEnd(s, i + 1) { }
  }

  /** Each range that the scan from `i` yields is a maximal hashtag. */
  lemma {:induction false} SpansAreMaximalHashtags(s: string, i: nat, k: nat)
    requires i <= |s|
    requires k < |SpansFrom(s, i)|
    ensures StartsTag(s, SpansFrom(s, i)[k].0)
    ensures SpansFrom(s, i)[k].1 == TagEnd(s, SpansFrom(s, i)[k].0)
    decreases |s| - i
  {
    if StartsTag(s, i) {
      if k > 0 {
        SpansAreMaximalHashtags(s, TagEnd(s, i), k - 1);
      }
    } else {
      SpansAreMaximalHashtags(s, i + 1, k);
    }
  }

  /** Leftmost-first completeness, the hard direction: every `#` followed
      by a word character at or after `i` starts one of the ranges. */
  lemma {:induction false} EveryTagStartFound(s: string, i: nat, j: nat) returns (k: nat)
    requires i <= j && StartsTag(s, j)
    ensures k < |SpansFrom(s, i)| && SpansFrom(s, i)[k].0 == j
    decreases |s| - i
  {
    if StartsTag(s, i) {
      var e := TagEnd(s, i);
      assert SpansFrom(s, i) == [(i, e)] + SpansFrom(s, e);
      if j == i {
        k := 0;
      } else {
        if j < e {
          InsideMatch(s, i, j);
        }
        var k' := EveryTagStartFound(s, e, j);
        k := k' + 1;
      }
    } else {
      assert SpansFrom(s, i) == SpansFrom(s, i + 1);
      k := EveryTagStartFound(s, i + 1, j);
    }
  }

  /** Leftmost-first completeness: the ranges start exactly at the
      positions at or after `i` holding a `#` followed by a word character. */
  lemma SpanStarts(s: string, i: nat, j: nat)
    requires i <= |s|
    ensures (exists k :: 0 <= k < |SpansFrom(s, i)| && SpansFrom(s, i)[k].0 == j)
        <==> i <= j && StartsTag(s, j)
  {
    if k :| 0 <= k < |SpansFrom(s, i)| && SpansFrom(s, i)[k].0 == j {
      SpansAreMaximalHashtags(s, i, k);
    }
    if i <= j && StartsTag(s, j) {
      var k := EveryTagStartFound(s, i, j);
    }
  }

  /** What `FindAll` promises: its elements are the texts of ordered,
      non-overlapping ranges of `s`; each is a `#\w+(-\w+)*` token that
      cannot be extended; and a range starts at position `j` if and only
      if `s[j]` is `#` followed by a word character. */
  lemma FindAllCharacterised(s: string)
    ensures var sp := SpansFrom(s, 0);
      && |FindAll(s)| == |sp|
      && (forall k :: 0 <= k < |sp| ==> sp[k].0 < sp[k].1 <= |s| && FindAll(s)[k] == s[sp[k].0..sp[k].1])
      && (forall k :: 0 <= k < |sp| - 1 ==> sp[k].1 <= sp[k + 1].0)
      && (forall k :: 0 <= k < |sp| ==>
            IsHashtag(FindAll(s)[k]) &&
            forall e :: sp[k].1 < e <= |s| ==> !IsHashtag(s[sp[k].0..e]))
      && (forall j: nat :: StartsTag(s, j) <==> exists k :: 0 <= k < |sp| && sp[k].0 == j)
  {
    var sp := SpansFrom(s, 0);
    forall k | 0 <= k < |sp|
      ensures IsHashtag(FindAll(s)[k])
      ensures forall e :: sp[k].1 < e <= |s| ==> !IsHashtag(s[sp[k].0..e])
    {
      SpansAreMaximalHashtags(s, 0, k);
      MatchIsMaximalHashtag(s, sp[k].0);
    }
    forall j: nat ensures StartsTag(s, j) <==> exists k :: 0 <= k < |sp| && sp[k].0 == j {
      SpanStarts(s, 0, j);
    }
  }

  /** A stretch of text without `#` contributes no match. */
  lemma {:induction false} SpansSkip(s: string, i: nat, j: nat)
    requires i <= j <= |s|
    requires forall m :: i <= m < j ==> s[m] != '#'
    ensures SpansFrom(s, i) == SpansFrom(s, j)
    decreases j - i
  {
    if i < j {
      assert !StartsTag(s, i);
      assert SpansFrom(s, i) == SpansFrom(s, i + 1);
      SpansSkip(s, i + 1, j);
    }
  }

  /** `WordEnd` is determined by where the run of word characters stops. */
  lemma WordEndAt(s: string, j: nat, k: nat)
    requires j <= k <= |s|
    requires forall m :: j <= m < k ==> IsWordChar(s[m])
    requires k == |s| || !IsWordChar(s[k])
    ensures WordEnd(s, j) == k
  {
  }

  /** The corollary for level-3 tags: every element starts with `#`, has a
      word character after it, never ends in `-`, and occurs in the text. */
  lemma FindAllElements(s: string, t: string)
    requires t in FindAll(s)
    ensures |t| >= 2 && t[0] == '#' && IsWordChar(t[1]) && t[|t| - 1] != '-'
    ensures exists a: nat, b: nat :: a <= b <= |s| && s[a..b] == t
  {
    FindAllCharacterised(s);
    var sp := SpansFrom(s, 0);
    var k :| 0 <= k < |FindAll(s)| && FindAll(s)[k] == t;
    assert IsHashtag(t);
    assert s[sp[k].0..sp[k].1] == t;
  }
}
