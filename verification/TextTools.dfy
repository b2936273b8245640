/** The string operations of the Python library that the parsers use: strip, split and join. */
module TextTools {

  /** Python's whitespace, as `strip` understands it. */
  predicate IsSpace(c: char) {
    || '\U{9}' <= c <= '\U{D}' || '\U{1C}' <= c <= ' ' || c == '\U{85}' || c == '\U{A0}' || c == '\U{1680}'
    || '\U{2000}' <= c <= '\U{200A}' || c == '\U{2028}' || c == '\U{2029}' || c == '\U{202F}' || c == '\U{205F}'
    || c == '\U{3000}'
  }

  /** The characters that Python strips, by their code points. */
  lemma SpaceTable(c: char)
    ensures IsSpace(c) <==>
              || c as int in {9, 10, 11, 12, 13, 28, 29, 30, 31, 32, 133, 160, 5760, 8232, 8233, 8239, 8287, 12288}
              || 8192 <= c as int <= 8202
  {
  }

  /** Where, from a place on, the characters of one kind end. */
  function RunEnd(s: string, kind: char -> bool, from: nat): (end: nat)
    requires from <= |s|
    ensures from <= end <= |s|
    ensures forall i :: from <= i < end ==> kind(s[i])
    ensures end < |s| ==> !kind(s[end])
    decreases |s| - from
  {
    if from < |s| && kind(s[from]) then RunEnd(s, kind, from + 1) else from
  }

  /** Where, back from a place, the characters of one kind start. */
  function RunStart(s: string, kind: char -> bool, to: nat): (start: nat)
    requires to <= |s|
    ensures start <= to
    ensures forall i :: start <= i < to ==> kind(s[i])
    ensures start > 0 ==> !kind(s[start - 1])
  {
    if to > 0 && kind(s[to - 1]) then RunStart(s, kind, to - 1) else to
  }

  /** The text without its leading characters of one kind. */
  function TrimLeft(s: string, drop: char -> bool): string {
    s[RunEnd(s, drop, 0)..]
  }

  function TrimRight(s: string, drop: char -> bool): string {
    s[..RunStart(s, drop, |s|)]
  }

  function Strip(s: string): string {
    TrimRight(TrimLeft(s, IsSpace), IsSpace)
  }

  /** No whitespace at either end. */
  predicate Stripped(s: string) {
    s == "" || (!IsSpace(s[0]) && !IsSpace(s[|s| - 1]))
  }

  lemma StripFacts(s: string)
    ensures Stripped(Strip(s)) && |Strip(s)| <= |s|
    ensures Stripped(s) ==> Strip(s) == s
  {
    var left := TrimLeft(s, IsSpace);
    if s != "" && !IsSpace(s[0]) {
      assert RunEnd(s, IsSpace, 0) == 0 && left == s;
    }
    TrimRightFacts(left);
  }

  lemma TrimRightFacts(s: string)
    requires s == "" || !IsSpace(s[0])
    ensures Stripped(TrimRight(s, IsSpace)) && |TrimRight(s, IsSpace)| <= |s|
    ensures Stripped(s) ==> TrimRight(s, IsSpace) == s
  {
  }

  lemma SliceAddsNothing<T>(s: seq<T>, from: nat, to: nat, x: T)
    requires from <= to <= |s| && x !in s
    ensures x !in s[from..to]
  {
  }

  /** Whitespace around a stripped text is what stripping removes. */
  lemma StripPadding(before: string, text: string, after: string)
    requires (forall c :: c in before ==> IsSpace(c)) && (forall c :: c in after ==> IsSpace(c))
    requires text != "" && Stripped(text)
    ensures Strip(before + text + after) == text
  {
    var s := before + text + after;
    RunEndsAt(s, IsSpace, 0, |before|);
    assert TrimLeft(s, IsSpace) == text + after;
    RunStartsAt(text + after, IsSpace, |text|);
  }

  lemma RunEndsAt(s: string, kind: char -> bool, from: nat, end: nat)
    requires from <= end <= |s| && (forall i :: from <= i < end ==> kind(s[i])) && (end < |s| ==> !kind(s[end]))
    ensures RunEnd(s, kind, from) == end
  {
  }

  lemma RunStartsAt(s: string, kind: char -> bool, start: nat)
    requires start <= |s| && (forall i :: start <= i < |s| ==> kind(s[i])) && (start > 0 ==> !kind(s[start - 1]))
    ensures RunStart(s, kind, |s|) == start
  {
  }

  lemma StripAddsNothing(s: string, c: char)
    requires c !in s
    ensures c !in Strip(s)
  {
    var left := TrimLeft(s, IsSpace);
    SliceAddsNothing(s, RunEnd(s, IsSpace, 0), |s|, c);
    SliceAddsNothing(left, 0, RunStart(left, IsSpace, |left|), c);
  }

  function IndexFrom(s: string, c: char, from: nat): (i: nat)
    requires from <= |s|
    ensures from <= i <= |s|
    ensures forall k :: from <= k < i ==> s[k] != c
    ensures i < |s| ==> s[i] == c
    decreases |s| - from
  {
    if from == |s| || s[from] == c then from else IndexFrom(s, c, from + 1)
  }

  /** The first place of the character, or the length where it is missing. */
  function IndexOf(s: string, c: char): (i: nat)
    ensures i <= |s| && c !in s[..i]
    ensures i < |s| ==> s[i] == c
    ensures i == |s| ==> c !in s
  {
    IndexFrom(s, c, 0)
  }

  lemma IndexOfFirst(a: string, c: char, b: string)
    requires c !in a
    ensures IndexOf(a + [c] + b, c) == |a|
  {
    var s := a + [c] + b;
    assert s[|a|] == c && forall k :: 0 <= k < |a| ==> s[k] == a[k];
  }

  function Split(s: string, c: char): (parts: seq<string>)
    ensures parts != []
    ensures forall i :: 0 <= i < |parts| ==> c !in parts[i]
    decreases |s|
  {
    var i := IndexOf(s, c);
    if i == |s| then
      assert s[..i] == s;
      [s]
    else [s[..i]] + Split(s[i + 1..], c)
  }

  function Join(parts: seq<string>, c: char): string
    requires parts != []
  {
    if |parts| == 1 then parts[0] else parts[0] + [c] + Join(parts[1..], c)
  }

  lemma SplitAlone(s: string, c: char)
    requires c !in s
    ensures Split(s, c) == [s]
  {
    assert s[..|s|] == s;
  }

  lemma SplitFirst(a: string, rest: string, c: char)
    requires c !in a
    ensures Split(a + [c] + rest, c) == [a] + Split(rest, c)
  {
    var s := a + [c] + rest;
    IndexOfFirst(a, c, rest);
    assert s[..|a|] == a && s[|a| + 1..] == rest;
  }

  lemma {:induction false} JoinOfSplit(s: string, c: char)
    ensures Join(Split(s, c), c) == s
    decreases |s|
  {
    hide Join, Split;
    var i := IndexOf(s, c);
    if i < |s| {
      JoinOfSplit(s[i + 1..], c);
      SplitStep(s, c, i);
      JoinStep(s[..i], Split(s[i + 1..], c), c);
      CutAt(s, c, i);
    } else {
      SplitAlone(s, c);
      JoinAlone(s, c);
    }
  }

  lemma SplitStep(s: string, c: char, i: nat)
    requires i == IndexOf(s, c) < |s|
    ensures Split(s, c) == [s[..i]] + Split(s[i + 1..], c)
  {
  }

  lemma JoinStep(a: string, rest: seq<string>, c: char)
    requires rest != []
    ensures Join([a] + rest, c) == a + [c] + Join(rest, c)
  {
    assert ([a] + rest)[1..] == rest;
  }

  lemma JoinAlone(s: string, c: char)
    ensures Join([s], c) == s
  {
  }

  lemma CutAt(s: string, c: char, i: nat)
    requires i < |s| && s[i] == c
    ensures s == s[..i] + [c] + s[i + 1..]
  {
  }

  lemma {:induction false} SplitOfJoin(parts: seq<string>, c: char)
    requires parts != [] && forall i :: 0 <= i < |parts| ==> c !in parts[i]
    ensures Split(Join(parts, c), c) == parts
  {
    if |parts| == 1 {
      SplitAlone(parts[0], c);
    } else {
      SplitFirst(parts[0], Join(parts[1..], c), c);
      SplitOfJoin(parts[1..], c);
    }
    HeadAndTail(parts);
  }

  lemma HeadAndTail<T>(s: seq<T>)
    requires s != []
    ensures s == [s[0]] + s[1..]
  {
  }

  /** Trimming stops at the first character that stays. */
  lemma TrimLeftStops(a: string, b: string, drop: char -> bool)
    requires b != "" && !drop(b[0])
    ensures TrimLeft(a + b, drop) == TrimLeft(a, drop) + b
  {
    RunsEndTogether(a, b, drop);
    SuffixOfConcat(a, b, RunEnd(a, drop, 0));
  }

  lemma RunsEndTogether(a: string, b: string, drop: char -> bool)
    requires b != "" && !drop(b[0])
    ensures RunEnd(a + b, drop, 0) == RunEnd(a, drop, 0)
  {
    var n := RunEnd(a, drop, 0);
    assert forall i :: 0 <= i < |a| ==> (a + b)[i] == a[i];
    assert (a + b)[|a|] == b[0];
    assert !drop((a + b)[n]);
  }

  lemma SuffixOfConcat<T>(a: seq<T>, b: seq<T>, n: nat)
    requires n <= |a|
    ensures (a + b)[n..] == a[n..] + b
  {
  }

  lemma {:induction false} JoinEnds(parts: seq<string>, c: char)
    requires parts != [] && forall i :: 0 <= i < |parts| ==> parts[i] != ""
    ensures var s := Join(parts, c); var last := parts[|parts| - 1];
            s != "" && s[0] == parts[0][0] && s[|s| - 1] == last[|last| - 1]
  {
    if |parts| > 1 {
      JoinEnds(parts[1..], c);
      ConcatEnds(parts[0], [c], Join(parts[1..], c));
    }
  }

  lemma ConcatEnds<T>(a: seq<T>, b: seq<T>, c: seq<T>)
    requires a != [] && c != []
    ensures var s := a + b + c; s[0] == a[0] && s[|s| - 1] == c[|c| - 1]
  {
  }

  lemma JoinHead(a: string, b: string, parts: seq<string>, c: char)
    ensures Join([a + b] + parts, c) == a + Join([b] + parts, c)
    ensures b != "" ==> Join([b] + parts, c) != "" && Join([b] + parts, c)[0] == b[0]
  {
    assert ([a + b] + parts)[1..] == parts == ([b] + parts)[1..];
    if parts == [] {
      assert [a + b] + parts == [a + b] && [b] + parts == [b];
    } else {
      assert a + b + [c] + Join(parts, c) == a + (b + [c] + Join(parts, c));
    }
  }
}
