/** The wrappers used throughout the model. */
module Wrappers {
  /** Python's `None` versus a value. */
  datatype Option<+T> = None | Some(value: T)

  /** The outcome of a step that may raise an exception. */
  datatype Outcome<+T> = Done(value: T) | Raised
}

/**
 * The handful of Python `str` operations the extraction engine relies on:
 * `strip`, `lower`, `title`, `split(sep)`, `split()`, `sep.join` and the
 * substring test `sub in s`.  Case mappings cover ASCII letters only;
 * whitespace is the full set Python's `str.isspace` (and the regex class `\s`)
 * accepts.
 */
module Text {
  import opened Wrappers

  /** Python's `str.isspace()` on one character, equally the regex class `\s` on str patterns. */
  predicate IsSpace(c: char)
  {
    ('\t' <= c <= '\r') || ('\U{1C}' <= c <= '\U{1F}') || c == ' ' || c == '\U{85}' || c == '\U{A0}'
    || c == '\U{1680}' || ('\U{2000}' <= c <= '\U{200A}') || c == '\U{2028}' || c == '\U{2029}'
    || c == '\U{202F}' || c == '\U{205F}' || c == '\U{3000}'
  }

  /** Neither end of `s` is whitespace. */
  predicate IsStripped(s: string)
  {
    s == [] || (!IsSpace(s[0]) && !IsSpace(s[|s| - 1]))
  }

  predicate AllSpace(s: string)
  {
    forall i :: 0 <= i < |s| ==> IsSpace(s[i])
  }

  /** Python's `s.lstrip()`. */
  function StripLeft(s: string): string
  {
    if s != [] && IsSpace(s[0]) then StripLeft(s[1..]) else s
  }

  /** `StripLeft` drops a whitespace prefix and stops at the first other character. */
  lemma {:induction false} StripLeftSpec(s: string)
    ensures |StripLeft(s)| <= |s| && StripLeft(s) == s[|s| - |StripLeft(s)|..]
    ensures StripLeft(s) == [] || !IsSpace(StripLeft(s)[0])
    ensures AllSpace(s[..|s| - |StripLeft(s)|])
  {
    if s != [] && IsSpace(s[0]) {
      StripLeftSpec(s[1..]);
      var r := StripLeft(s);
      assert s[1..][|s| - 1 - |r|..] == s[|s| - |r|..];
      forall i | 0 <= i < |s| - |r| ensures IsSpace(s[i]) {
        if i > 0 { assert s[i] == s[1..][..|s| - 1 - |r|][i - 1]; }
      }
    }
  }

  /** Python's `s.rstrip()`. */
  function StripRight(s: string): string
  {
    if s != [] && IsSpace(s[|s| - 1]) then StripRight(s[..|s| - 1]) else s
  }

  /** `StripRight` drops a whitespace suffix and stops at the last other character. */
  lemma {:induction false} StripRightSpec(s: string)
    ensures |StripRight(s)| <= |s| && StripRight(s) == s[..|StripRight(s)|]
    ensures StripRight(s) == [] || !IsSpace(StripRight(s)[|StripRight(s)| - 1])
    ensures AllSpace(s[|StripRight(s)|..])
  {
    if s != [] && IsSpace(s[|s| - 1]) {
      StripRightSpec(s[..|s| - 1]);
      var r := StripRight(s);
      assert s[..|s| - 1][..|r|] == s[..|r|];
      forall i | |r| <= i < |s| ensures IsSpace(s[i]) {
        if i < |s| - 1 { assert s[i] == s[..|s| - 1][|r|..][i - |r|]; }
      }
    }
  }

  /** Python's `s.strip()`: the text between the leading and the trailing whitespace. */
  function Strip(s: string): (r: string)
    ensures IsStripped(r)
    ensures IsStripped(s) ==> r == s
    ensures r == [] <==> AllSpace(s)
    ensures forall c :: c in r ==> c in s
  {
    var l := StripLeft(s);
    var r := StripRight(l);
    StripLeftSpec(s);
    StripRightSpec(l);
    assert forall c :: c in r ==> c in l;
    assert forall c :: c in l ==> c in s;
    assert r == [] ==> AllSpace(s) by {
      if r == [] {
        assert AllSpace(l[|r|..]);
        assert l == [];
        assert s[..|s|] == s;
      }
    }
    r
  }

  lemma StripIdempotent(s: string)
    ensures Strip(Strip(s)) == Strip(s)
  {
  }

  function LowerChar(c: char): char
  {
    if 'A' <= c <= 'Z' then (c as int + 32) as char else c
  }

  function UpperChar(c: char): char
  {
    if 'a' <= c <= 'z' then (c as int - 32) as char else c
  }

  /** Python's `s.lower()`, on ASCII letters. */
  function Lower(s: string): string
  {
    seq(|s|, i requires 0 <= i < |s| => LowerChar(s[i]))
  }

  /** A letter that has case (ASCII), which is what `str.title` looks at. */
  predicate IsCased(c: char)
  {
    'A' <= c <= 'Z' || 'a' <= c <= 'z'
  }

  /** One character of `str.title`'s output, given whether the character before it was cased. */
  function TitleChar(c: char, afterCased: bool): char
  {
    if !IsCased(c) then c else if afterCased then LowerChar(c) else UpperChar(c)
  }

  /**
   * Python's `s.title()`: a cased letter that follows a cased letter is lower-cased,
   * any other cased letter is upper-cased, everything else is kept.
   * `afterCased` says whether the character before `s` was cased.
   */
  function TitleFrom(s: string, afterCased: bool): string
  {
    if s == [] then [] else [TitleChar(s[0], afterCased)] + TitleFrom(s[1..], IsCased(s[0]))
  }

  /** Each character of the result is `TitleChar` of the input character and its predecessor's casedness. */
  lemma {:induction false} TitleFromSpec(s: string, afterCased: bool)
    ensures |TitleFrom(s, afterCased)| == |s|
    ensures forall i :: 0 <= i < |s| ==>
      TitleFrom(s, afterCased)[i] == TitleChar(s[i], if i == 0 then afterCased else IsCased(s[i - 1]))
  {
    if s != [] {
      TitleFromSpec(s[1..], IsCased(s[0]));
      var r := TitleFrom(s, afterCased);
      var rest := TitleFrom(s[1..], IsCased(s[0]));
      forall i | 1 <= i < |s|
        ensures r[i] == TitleChar(s[i], IsCased(s[i - 1]))
      {
        assert r[i] == rest[i - 1] && s[1..][i - 1] == s[i];
        if i >= 2 { assert s[1..][i - 2] == s[i - 1]; }
      }
    }
  }

  function Title(s: string): string
  {
    TitleFrom(s, false)
  }

  /** After a cased letter, a run of lower-case ASCII letters is left as it is. */
  lemma {:induction false} TitleAfterCased(s: string)
    requires forall i :: 0 <= i < |s| ==> 'a' <= s[i] <= 'z'
    ensures TitleFrom(s, true) == s
  {
    if s != [] {
      TitleAfterCased(s[1..]);
      assert [s[0]] + s[1..] == s;
    }
  }

  /** `sub` occurs in `s` starting at index `i`. */
  predicate OccursAt(s: string, sub: string, i: nat)
  {
    i + |sub| <= |s| && s[i..i + |sub|] == sub
  }

  /** Python's `sub in s`. */
  predicate Contains(s: string, sub: string)
  {
    exists i: nat :: i <= |s| && OccursAt(s, sub, i)
  }

  /** The first index at or after `from` where `sub` occurs in `s`, as `str.find` does. */
  function Find(s: string, sub: string, from: nat): (r: Option<nat>)
    decreases |s| - from
    ensures r.Some? ==> from <= r.value && OccursAt(s, sub, r.value)
    ensures r.Some? ==> forall j :: from <= j < r.value ==> !OccursAt(s, sub, j)
    ensures r.None? ==> forall j :: from <= j ==> !OccursAt(s, sub, j)
  {
    if from + |sub| > |s| then None
    else if OccursAt(s, sub, from) then Some(from)
    else Find(s, sub, from + 1)
  }

  /** The inverse of `Split`: `sep.join(parts)`. */
  function Join(parts: seq<string>, sep: string): string
  {
    if parts == [] then []
    else if |parts| == 1 then parts[0]
    else parts[0] + sep + Join(parts[1..], sep)
  }

  lemma NoOccurrenceInPrefix(s: string, sub: string, i: nat)
    requires sub != [] && i <= |s|
    requires forall j :: 0 <= j < i ==> !OccursAt(s, sub, j)
    ensures !Contains(s[..i], sub)
  {
    forall j: nat | j + |sub| <= i ensures !OccursAt(s[..i], sub, j) {
      assert !OccursAt(s, sub, j);
      assert s[..i][j..j + |sub|] == s[j..j + |sub|];
    }
  }

  /**
   * Python's `s.split(sep)` for a non-empty separator: the pieces between the
   * occurrences of `sep`, found left to right without overlap.
   */
  function Split(s: string, sep: string): (parts: seq<string>)
    requires sep != []
    decreases |s|
    ensures |parts| >= 1
    ensures Join(parts, sep) == s
    ensures forall k :: 0 <= k < |parts| ==> !Contains(parts[k], sep)
    ensures Contains(s, sep) <==> |parts| >= 2
    ensures |parts| >= 2 ==> forall j :: 0 <= j < |parts[0]| ==> !OccursAt(s, sep, j)
  {
    match Find(s, sep, 0)
    case None =>
      assert !Contains(s, sep);
      [s]
    case Some(i) =>
      var rest := Split(s[i + |sep|..], sep);
      NoOccurrenceInPrefix(s, sep, i);
      assert s == s[..i] + sep + s[i + |sep|..];
      [s[..i]] + rest
  }

  /** Splitting at the only occurrence of `sep` gives the two sides. */
  lemma SplitOnce(s: string, sep: string, i: nat)
    requires sep != [] && OccursAt(s, sep, i)
    requires forall j :: 0 <= j < i ==> !OccursAt(s, sep, j)
    requires !Contains(s[i + |sep|..], sep)
    ensures Split(s, sep) == [s[..i], s[i + |sep|..]]
  {
    var rest := Split(s[i + |sep|..], sep);
    assert |rest| == 1;
  }

  /** Splitting at the only occurrence of the character `c`. */
  lemma SplitAtChar(s: string, c: char, i: nat)
    requires i < |s| && s[i] == c
    requires forall j :: 0 <= j < i ==> s[j] != c
    requires c !in s[i + 1..]
    ensures Split(s, [c]) == [s[..i], s[i + 1..]]
  {
    ContainsChar(s[i + 1..], c);
    forall j | 0 <= j < i ensures !OccursAt(s, [c], j) {
      assert s[j..j + 1][0] == s[j];
    }
    SplitOnce(s, [c], i);
  }

  /** A string without `sep` splits into itself alone. */
  lemma SplitNone(s: string, sep: string)
    requires sep != [] && !Contains(s, sep)
    ensures Split(s, sep) == [s]
  {
  }

  lemma ContainsChar(s: string, c: char)
    ensures Contains(s, [c]) <==> c in s
  {
    if c in s {
      var i :| 0 <= i < |s| && s[i] == c;
      assert OccursAt(s, [c], i);
    }
    if Contains(s, [c]) {
      var i: nat :| i <= |s| && OccursAt(s, [c], i);
      assert s[i..i + 1][0] == s[i];
    }
  }

  /** A non-empty run of non-whitespace characters. */
  predicate IsWord(w: string)
  {
    w != [] && forall i :: 0 <= i < |w| ==> !IsSpace(w[i])
  }

  /** Python's `s.split()`: the maximal runs of non-whitespace characters, in order. */
  function Words(s: string): (ws: seq<string>)
    decreases |s|
    ensures forall k :: 0 <= k < |ws| ==> IsWord(ws[k])
  {
    var t := StripLeft(s);
    StripLeftSpec(s);
    if t == [] then []
    else
      var n := WordLength(t);
      [t[..n]] + Words(t[n..])
  }

  /** Length of the run of non-whitespace characters at the head of `t`. */
  function WordLength(t: string): (n: nat)
    ensures n <= |t|
    ensures forall i :: 0 <= i < n ==> !IsSpace(t[i])
    ensures t != [] && !IsSpace(t[0]) ==> n >= 1
    ensures n < |t| ==> IsSpace(t[n])
  {
    if t == [] || IsSpace(t[0]) then 0 else 1 + WordLength(t[1..])
  }

  /** `gaps[0] + words[0] + gaps[1] + ... + words[n-1] + gaps[n]`. */
  function Interleave(gaps: seq<string>, words: seq<string>): (r: string)
    requires |gaps| == |words| + 1
    decreases |words|
    ensures |r| >= |gaps[0]|
  {
    if words == [] then gaps[0]
    else gaps[0] + words[0] + Interleave(gaps[1..], words[1..])
  }

  /**
   * `Words` covers its input: the input is the words interleaved with
   * whitespace gaps, and every gap between two words is non-empty. Since no
   * word holds whitespace, the words are exactly the maximal non-whitespace
   * runs. There are no words exactly when the input is all whitespace.
   */
  lemma {:induction false} WordsCover(s: string) returns (gaps: seq<string>)
    decreases |s|
    ensures |gaps| == |Words(s)| + 1
    ensures s == Interleave(gaps, Words(s))
    ensures forall k :: 0 <= k < |gaps| ==> AllSpace(gaps[k])
    ensures forall k :: 0 < k < |gaps| - 1 ==> gaps[k] != []
    ensures Words(s) == [] <==> AllSpace(s)
    ensures s != [] && IsSpace(s[0]) ==> gaps[0] != []
  {
    var t := StripLeft(s);
    StripLeftSpec(s);
    var lead := s[..|s| - |t|];
    assert s == lead + t;
    if t == [] {
      assert lead == s;
      gaps := [s];
    } else {
      var n := WordLength(t);
      var rest := t[n..];
      var tail := WordsCover(rest);
      gaps := [lead] + tail;
      WordsStep(s, t, n, lead, rest, tail);
      if Words(rest) != [] {
        assert rest != [] && IsSpace(rest[0]);
      }
      GapsPrepend(lead, tail);
      assert !AllSpace(s) by {
        assert s[|lead|] == t[0];
      }
    }
  }

  /** Prepending a whitespace gap keeps the gaps whitespace, and keeps inner gaps non-empty when the old first gap is. */
  lemma GapsPrepend(lead: string, tail: seq<string>)
    requires AllSpace(lead) && |tail| >= 1
    requires forall k :: 0 <= k < |tail| ==> AllSpace(tail[k])
    requires forall k :: 0 <= k < |tail| - 1 ==> tail[k] != []
    ensures forall k :: 0 <= k < |[lead] + tail| ==> AllSpace(([lead] + tail)[k])
    ensures forall k :: 0 < k < |[lead] + tail| - 1 ==> ([lead] + tail)[k] != []
  {
    var gaps := [lead] + tail;
    forall k | 0 < k < |gaps|
      ensures gaps[k] == tail[k - 1]
    {
    }
  }

  /** One step of `WordsCover`: the first word and its leading gap. */
  lemma WordsStep(s: string, t: string, n: nat, lead: string, rest: string, tail: seq<string>)
    requires t == StripLeft(s) && t != [] && s == lead + t
    requires n == WordLength(t) && rest == t[n..]
    requires |tail| == |Words(rest)| + 1 && rest == Interleave(tail, Words(rest))
    ensures |[lead] + tail| == |Words(s)| + 1
    ensures s == Interleave([lead] + tail, Words(s))
  {
    var ws := Words(s);
    WordsUnfold(s, t, n);
    var gaps := [lead] + tail;
    assert gaps[0] == lead && gaps[1..] == tail;
    assert ws[0] == t[..n] && ws[1..] == Words(rest);
    calc {
      Interleave(gaps, ws);
      lead + t[..n] + Interleave(tail, Words(rest));
      lead + (t[..n] + rest);
      { assert t == t[..n] + rest; }
      s;
    }
  }

  /** `Words` of a text whose stripped form `t` is non-empty starts with the run at the head of `t`. */
  lemma WordsUnfold(s: string, t: string, n: nat)
    requires t == StripLeft(s) && t != [] && n == WordLength(t)
    ensures Words(s) == [t[..n]] + Words(t[n..])
  {
  }
}