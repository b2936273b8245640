/** Reading the output of `git describe --long --dirty` into version pieces, and printing pieces back
    (nabla/_version.py). */
module GitDescribe {
  import opened Decimal
  import opened Lists
  import opened Wrappers

  const DIRTY := "-dirty"

  predicate IsHex(c: char) {
    IsDigit(c) || 'a' <= c <= 'f'
  }

  lemma HexDigits(c: char)
    ensures IsHex(c) <==> c in "0123456789abcdef"
  {
    var all := "0123456789abcdef";
    if IsDigit(c) {
      assert all[c as int - '0' as int] == c;
    } else if IsHex(c) {
      assert all[10 + (c as int - 'a' as int)] == c;
    }
  }

  predicate HexText(s: string) {
    s != "" && forall i :: 0 <= i < |s| ==> IsHex(s[i])
  }

  /** What the three groups of `^(.+)-(\d+)-g([0-9a-f]+)$` capture. */
  datatype Match = Match(tag: string, number: string, hex: string)

  function Text(m: Match): string {
    m.tag + "-" + m.number + "-g" + m.hex
  }

  predicate WellFormed(m: Match, digits: Digits) {
    m.tag != "" && '\n' !in m.tag && Numeral(m.number, digits) && HexText(m.hex)
  }

  /** The pattern accepts the text with these groups; its `$` also accepts one final line break. */
  predicate Splits(s: string, m: Match, digits: Digits) {
    WellFormed(m, digits) && (s == Text(m) || s == Text(m) + "\n")
  }

  // ---------------------------------------------------------------- at most one split

  predicate LastDash(s: string, p: int) {
    0 <= p < |s| && s[p] == '-' && forall k :: p < k < |s| ==> s[k] != '-'
  }

  lemma DashPositions(m: Match, digits: Digits)
    requires DecimalDigits(digits)
    requires WellFormed(m, digits)
    ensures LastDash(Text(m), |m.tag| + 1 + |m.number|)
    ensures LastDash(Text(m)[..|m.tag| + 1 + |m.number|], |m.tag|)
  {
    var s := Text(m);
    var p := |m.tag| + 1 + |m.number|;
    assert s[p] == '-' && s[p + 1] == 'g';
    forall k | p < k < |s| ensures s[k] != '-' {
      if k > p + 1 {
        assert s[k] == m.hex[k - p - 2];
      }
    }
    forall k | |m.tag| < k < p ensures s[k] != '-' {
      assert s[k] == m.number[k - |m.tag| - 1];
    }
  }

  lemma TextIsSplitOnce(m: Match, n: Match, digits: Digits)
    requires DecimalDigits(digits)
    requires WellFormed(m, digits) && WellFormed(n, digits) && Text(m) == Text(n)
    ensures m == n
  {
    DashPositions(m, digits);
    DashPositions(n, digits);
    var s, p, q := Text(m), |m.tag| + 1 + |m.number|, |m.tag|;
    assert p == |n.tag| + 1 + |n.number|;
    assert q == |n.tag|;
    assert m.tag == s[..q] == n.tag;
    assert m.number == s[q + 1..p] == n.number;
    assert m.hex == s[p + 2..] == n.hex;
  }

  /** The text has at most one split, even when the tag itself looks like a described version. */
  lemma SplitIsUnique(s: string, m: Match, n: Match, digits: Digits)
    requires DecimalDigits(digits)
    requires Splits(s, m, digits) && Splits(s, n, digits)
    ensures m == n
  {
    assert Text(m)[|Text(m)| - 1] == m.hex[|m.hex| - 1];
    assert Text(n)[|Text(n)| - 1] == n.hex[|n.hex| - 1];
    if s == Text(m) + "\n" {
      assert s[|s| - 1] == '\n';
      assert Text(m) == s[..|s| - 1];
    }
    if s == Text(n) + "\n" {
      assert s[|s| - 1] == '\n';
      assert Text(n) == s[..|s| - 1];
    }
    TextIsSplitOnce(m, n, digits);
  }

  // ---------------------------------------------------------------- the greedy search

  /** The end of the longest run of characters from `from` on that are all of one kind. */
  method RunEnd(s: string, from: nat, kind: char -> bool) returns (end: nat)
    requires from <= |s|
    ensures from <= end <= |s|
    ensures forall k :: from <= k < end ==> kind(s[k])
    ensures end < |s| ==> !kind(s[end])
  {
    end := from;
    while end < |s| && kind(s[end])
      invariant from <= end <= |s|
      invariant forall k :: from <= k < end ==> kind(s[k])
    {
      end := end + 1;
    }
  }

  /** Where the parts of a split lie. */
  lemma SplitLayout(s: string, m: Match, digits: Digits)
    requires Splits(s, m, digits)
    ensures var q := |m.tag|; var p := q + 1 + |m.number|; var e := p + 2 + |m.hex|;
            && e <= |s| && (e == |s| || (e == |s| - 1 && s[e] == '\n'))
            && s[..q] == m.tag && s[q] == '-' && s[q + 1..p] == m.number
            && s[p] == '-' && s[p + 1] == 'g' && s[p + 2..e] == m.hex
  {
    assert s[..|Text(m)|] == Text(m);
  }

  /** Tries the pattern with the first `i` characters as the tag. */
  method MatchAt(s: string, i: nat, digits: Digits) returns (found: Option<Match>)
    requires DecimalDigits(digits)
    requires 0 < i <= |s| && '\n' !in s[..i]
    ensures found.Some? ==> Splits(s, found.value, digits) && |found.value.tag| == i
    ensures found.None? ==> forall m :: Splits(s, m, digits) ==> |m.tag| != i
  {
    forall m | Splits(s, m, digits) && |m.tag| == i
      ensures i < |s| && s[i] == '-'
    {
      SplitLayout(s, m, digits);
    }
    if i == |s| || s[i] != '-' { return None; }
    var p := RunEnd(s, i + 1, c => digits(c).Some?);
    forall m | Splits(s, m, digits) && |m.tag| == i
      ensures p == i + 1 + |m.number| && p + 2 < |s| && s[p] == '-' && s[p + 1] == 'g'
    {
      SplitLayout(s, m, digits);
      NumberFillsRun(s, m, p, digits);
    }
    if p == i + 1 || p + 2 >= |s| || s[p] != '-' || s[p + 1] != 'g' { return None; }
    var e := RunEnd(s, p + 2, IsHex);
    forall m | Splits(s, m, digits) && |m.tag| == i
      ensures e == p + 2 + |m.hex| && (e == |s| || (e == |s| - 1 && s[e] == '\n'))
    {
      SplitLayout(s, m, digits);
      HexFillsRun(s, m, e, digits);
    }
    if e == p + 2 || !(e == |s| || (e == |s| - 1 && s[e] == '\n')) { return None; }
    found := Some(Match(s[..i], s[i + 1..p], s[p + 2..e]));
    PiecesSplit(s, i, p, e, digits);
  }

  lemma NumberFillsRun(s: string, m: Match, p: nat, digits: Digits)
    requires DecimalDigits(digits)
    requires Splits(s, m, digits) && |m.tag| < p <= |s|
    requires forall k :: |m.tag| < k < p ==> digits(s[k]).Some?
    requires p < |s| ==> digits(s[p]).None?
    ensures p == |m.tag| + 1 + |m.number|
  {
    SplitLayout(s, m, digits);
    var end := |m.tag| + 1 + |m.number|;
    forall k | |m.tag| < k < end ensures digits(s[k]).Some? {
      assert s[k] == s[|m.tag| + 1..end][k - |m.tag| - 1];
    }
  }

  lemma HexFillsRun(s: string, m: Match, e: nat, digits: Digits)
    requires Splits(s, m, digits)
    requires var from := |m.tag| + |m.number| + 3;
             from <= e <= |s| && forall k :: from <= k < e ==> IsHex(s[k])
    requires e < |s| ==> !IsHex(s[e])
    ensures e == |m.tag| + |m.number| + 3 + |m.hex|
  {
    SplitLayout(s, m, digits);
    var from := |m.tag| + |m.number| + 3;
    var end := from + |m.hex|;
    forall k | from <= k < end ensures IsHex(s[k]) {
      assert s[k] == s[from..end][k - from];
    }
  }

  lemma PiecesSplit(s: string, i: nat, p: nat, e: nat, digits: Digits)
    requires 0 < i && i + 1 < p && p + 2 < e <= |s|
    requires '\n' !in s[..i] && s[i] == '-' && s[p] == '-' && s[p + 1] == 'g'
    requires forall k :: i + 1 <= k < p ==> digits(s[k]).Some?
    requires forall k :: p + 2 <= k < e ==> IsHex(s[k])
    requires e == |s| || (e == |s| - 1 && s[e] == '\n')
    ensures Splits(s, Match(s[..i], s[i + 1..p], s[p + 2..e]), digits)
  {
    hide Numeral;
    var m := Match(s[..i], s[i + 1..p], s[p + 2..e]);
    PartsAreText(s, i, p, e);
    assert s[e..] == if e == |s| then "" else "\n";
    assert Numeral(m.number, digits) by {
      DigitsAreNumeral(s, i + 1, p, digits);
    }
  }

  lemma PartsAreText(s: string, i: nat, p: nat, e: nat)
    requires i < p && p + 2 <= e <= |s| && s[i] == '-' && s[p] == '-' && s[p + 1] == 'g'
    ensures s == Text(Match(s[..i], s[i + 1..p], s[p + 2..e])) + s[e..]
  {
    assert s[..e] == s[..i] + "-" + s[i + 1..p] + "-g" + s[p + 2..e];
  }

  lemma DigitsAreNumeral(s: string, from: nat, to: nat, digits: Digits)
    requires from < to <= |s| && forall k :: from <= k < to ==> digits(s[k]).Some?
    ensures Numeral(s[from..to], digits)
  {
  }

  /** The search of the pattern engine: the tag group first takes all it can and then gives back. */
  method Search(s: string, digits: Digits) returns (found: Option<Match>)
    requires DecimalDigits(digits)
    ensures forall m :: found == Some(m) <==> Splits(s, m, digits)
  {
    var limit := RunEnd(s, 0, c => c != '\n');
    var i := limit;
    forall m | Splits(s, m, digits) ensures |m.tag| <= limit {
      SplitLayout(s, m, digits);
      assert forall k :: 0 <= k < |m.tag| ==> s[k] == m.tag[k];
    }
    while i > 0
      invariant i <= limit
      invariant forall m :: Splits(s, m, digits) ==> |m.tag| <= i
    {
      found := MatchAt(s, i, digits);
      if found.Some? {
        forall m | Splits(s, m, digits) ensures m == found.value {
          SplitIsUnique(s, m, found.value, digits);
        }
        return;
      }
      i := i - 1;
    }
    found := None;
  }

  // ---------------------------------------------------------------- version pieces

  datatype Pieces = Pieces(closestTag: Option<string>, distance: nat, short: string, dirty: bool)

  datatype DescribeError = Unparsable(text: string) | WrongPrefix(tag: string)

  predicate EndsWith(s: string, suffix: string) {
    |suffix| <= |s| && s[|s| - |suffix|..] == suffix
  }

  /** What is left of the describe output once its dirty mark is removed. */
  function Clean(text: string): string {
    if EndsWith(text, DIRTY) then text[..|text| - |DIRTY|] else text
  }

  /** Cuts the text at the last place where the suffix occurs, searching from the right. */
  method CutAtLast(s: string, suffix: string) returns (rest: string)
    requires EndsWith(s, suffix)
    ensures rest + suffix == s
  {
    var i := |s|;
    while i > 0 && !(i + |suffix| <= |s| && s[i..i + |suffix|] == suffix)
      invariant |s| - |suffix| <= i <= |s|
    {
      assert s[|s| - |suffix|..] == s[|s| - |suffix|..|s|];
      i := i - 1;
    }
    rest := s[..i];
    assert i + |suffix| == |s| && s[i..] == suffix;
  }

  /** The pieces read from a split text. */
  predicate ReadsAs(prefix: string, m: Match, pieces: Pieces, digits: Digits) {
    && Numeral(m.number, digits) && prefix <= m.tag
    && pieces.closestTag == Some(m.tag[|prefix|..]) && pieces.distance == Value(m.number, digits)
    && pieces.short == m.hex
  }

  /** What reading the describe output is to yield. Without a tag in it the short revision and the number
      of commits come from other commands. */
  ghost predicate Reads(prefix: string, text: string, full: string, commits: nat, r: Result<Pieces, DescribeError>,
                        digits: Digits) {
    var body := Clean(text);
    match r
    case Success(pieces) =>
      && pieces.dirty == EndsWith(text, DIRTY)
      && if '-' in body then exists m :: Splits(body, m, digits) && ReadsAs(prefix, m, pieces, digits)
         else pieces.closestTag == None && pieces.distance == commits && pieces.short == full[..Min(7, |full|)]
    case Failure(Unparsable(original)) => original == text && '-' in body && forall m :: !Splits(body, m, digits)
    case Failure(WrongPrefix(tag)) => exists m :: Splits(body, m, digits) && m.tag == tag && !(prefix <= tag)
  }

  function Min(a: nat, b: nat): nat {
    if a <= b then a else b
  }

  method PiecesFromDescribe(prefix: string, text: string, full: string, commits: nat, digits: Digits)
    returns (r: Result<Pieces, DescribeError>)
    requires DecimalDigits(digits)
    ensures Reads(prefix, text, full, commits, r, digits)
  {
    var dirty := EndsWith(text, DIRTY);
    var described := text;
    if dirty {
      described := CutAtLast(text, DIRTY);
    }
    assert described == Clean(text);
    var short := full[..Min(7, |full|)];
    if '-' in described {
      var found := Search(described, digits);
      if found.None? {
        assert forall m :: Splits(described, m, digits) ==> found == Some(m);
        return Failure(Unparsable(text));
      }
      assert Splits(described, found.value, digits);
      var tag := found.value.tag;
      if !(prefix <= tag) {
        return Failure(WrongPrefix(tag));
      }
      var pieces := Pieces(Some(tag[|prefix|..]), Value(found.value.number, digits), found.value.hex, dirty);
      assert ReadsAs(prefix, found.value, pieces, digits);
      return Success(pieces);
    } else {
      return Success(Pieces(None, commits, short, dirty));
    }
  }

  /** Printing, with the distance and revision always shown; a missing or empty tag leaves only the
      revision. */
  function RenderLong(pieces: Pieces): string {
    (if pieces.closestTag.Some? && pieces.closestTag.value != ""
     then pieces.closestTag.value + "-" + Render(pieces.distance) + "-g" + pieces.short
     else pieces.short)
    + (if pieces.dirty then DIRTY else "")
  }

  // ---------------------------------------------------------------- reading is unambiguous and inverts printing

  lemma SplitHasDash(s: string, m: Match, digits: Digits)
    requires Splits(s, m, digits)
    ensures '-' in s
  {
    SplitLayout(s, m, digits);
  }

  /** The description determines the outcome. */
  lemma ReadingIsUnique(prefix: string, text: string, full: string, commits: nat,
                        r: Result<Pieces, DescribeError>, r': Result<Pieces, DescribeError>, digits: Digits)
    requires DecimalDigits(digits)
    requires Reads(prefix, text, full, commits, r, digits) && Reads(prefix, text, full, commits, r', digits)
    ensures r == r'
  {
    var body := Clean(text);
    forall m, n | Splits(body, m, digits) && Splits(body, n, digits) ensures m == n {
      SplitIsUnique(body, m, n, digits);
    }
    if m :| Splits(body, m, digits) {
      SplitHasDash(body, m, digits);
    }
  }

  /** Printing the number again can only shorten the text, and keeps it exactly when the number is
      canonical. */
  lemma Reprinted(m: Match, digits: Digits)
    requires DecimalDigits(digits)
    requires WellFormed(m, digits)
    ensures var printed := Text(m.(number := Render(Value(m.number, digits))));
            |printed| <= |Text(m)| && (printed == Text(m) <==> Canonical(m.number))
  {
    RenderOfValue(m.number, digits);
    SameNumber(m, Render(Value(m.number, digits)));
  }

  lemma SameNumber(m: Match, number: string)
    ensures Text(m.(number := number)) == Text(m) <==> number == m.number
  {
    var from := |m.tag| + 1;
    if Text(m.(number := number)) == Text(m) {
      assert |number| == |m.number|;
      assert number == Text(m.(number := number))[from..from + |number|];
      assert m.number == Text(m)[from..from + |m.number|];
    }
  }

  /** Printing what was read gives the text back exactly when its number is in canonical decimal, its tag
      is more than the prefix, and it does not end in a line break. */
  lemma PrintAfterRead(prefix: string, text: string, m: Match, pieces: Pieces, digits: Digits)
    requires DecimalDigits(digits)
    requires Splits(Clean(text), m, digits) && ReadsAs(prefix, m, pieces, digits)
    requires pieces.dirty == EndsWith(text, DIRTY)
    ensures prefix + RenderLong(pieces) == text <==>
              Canonical(m.number) && m.tag != prefix && Clean(text) == Text(m)
  {
    Reprinted(m, digits);
    var rest := if pieces.dirty then DIRTY else "";
    assert text == Clean(text) + rest;
    PrintedForm(prefix, m, pieces, rest, digits);
    SameRest(Text(m.(number := Render(Value(m.number, digits)))), Clean(text), rest);
  }

  lemma PrintedForm(prefix: string, m: Match, pieces: Pieces, rest: string, digits: Digits)
    requires WellFormed(m, digits) && ReadsAs(prefix, m, pieces, digits) && rest == if pieces.dirty then DIRTY else ""
    ensures m.tag != prefix ==>
              prefix + RenderLong(pieces) == Text(m.(number := Render(Value(m.number, digits)))) + rest
    ensures m.tag == prefix ==> |prefix + RenderLong(pieces)| < |Text(m)| + |rest|
  {
    var tag := pieces.closestTag.value;
    assert m.tag == prefix + tag;
    if tag != "" {
      Regroup(prefix, tag, "-" + Render(pieces.distance) + "-g" + pieces.short + rest);
    }
  }

  lemma SameRest(s: string, t: string, rest: string)
    ensures s + rest == t + rest <==> s == t
  {
    if s + rest == t + rest {
      assert s == (s + rest)[..|s|] == (t + rest)[..|t|] == t;
    }
  }

  predicate Printable(prefix: string, pieces: Pieces) {
    && pieces.closestTag.Some? && pieces.closestTag.value != "" && HexText(pieces.short)
    && '\n' !in prefix && '\n' !in pieces.closestTag.value
  }

  lemma PrintedText(prefix: string, pieces: Pieces, digits: Digits)
    requires DecimalDigits(digits)
    requires Printable(prefix, pieces)
    ensures var m := Match(prefix + pieces.closestTag.value, Render(pieces.distance), pieces.short);
            && WellFormed(m, digits) && ReadsAs(prefix, m, pieces, digits)
            && prefix + RenderLong(pieces) == Text(m) + (if pieces.dirty then DIRTY else "")
  {
    ValueOfRender(pieces.distance, digits);
    var m := Match(prefix + pieces.closestTag.value, Render(pieces.distance), pieces.short);
    assert m.tag[|prefix|..] == pieces.closestTag.value;
    assert prefix + RenderLong(pieces) == Text(m) + (if pieces.dirty then DIRTY else "");
  }

  lemma HexEndIsClean(s: string)
    requires s != "" && IsHex(s[|s| - 1])
    ensures !EndsWith(s, DIRTY)
  {
    if |DIRTY| <= |s| {
      assert s[|s| - |DIRTY|..][|DIRTY| - 1] != DIRTY[|DIRTY| - 1];
    }
  }

  /** Reading what was printed gives the pieces back, whatever the tag looks like. */
  lemma ReadAfterPrint(prefix: string, pieces: Pieces, full: string, commits: nat, digits: Digits)
    requires DecimalDigits(digits)
    requires Printable(prefix, pieces)
    ensures Reads(prefix, prefix + RenderLong(pieces), full, commits, Success(pieces), digits)
  {
    var m := Match(prefix + pieces.closestTag.value, Render(pieces.distance), pieces.short);
    var text := prefix + RenderLong(pieces);
    PrintedText(prefix, pieces, digits);
    assert Text(m)[|Text(m)| - 1] == m.hex[|m.hex| - 1];
    if pieces.dirty {
      assert text[|text| - |DIRTY|..] == DIRTY;
      assert Clean(text) == Text(m);
    } else {
      HexEndIsClean(text);
    }
    assert Splits(Clean(text), m, digits);
    SplitHasDash(Clean(text), m, digits);
  }

  /** A leading zero in the number of commits is lost. */
  lemma LeadingZeroExample(full: string, commits: nat, digits: Digits)
    requires DecimalDigits(digits)
    ensures var pieces := Pieces(Some("1"), 5, "abc", false);
            Reads("v", "v1-05-gabc", full, commits, Success(pieces), digits) && "v" + RenderLong(pieces) != "v1-05-gabc"
  {
    var text, m := "v1-05-gabc", Match("v1", "05", "abc");
    var pieces := Pieces(Some("1"), 5, "abc", false);
    assert "05"[..1] == "0" && "0"[..0] == "";
    assert Value("0", digits) == 0 && Value("05", digits) == 5;
    assert "v" <= "v1" && "v1"[1..] == "1";
    assert text == Text(m);
    HexEndIsClean(text);
    assert Splits(Clean(text), m, digits);
    assert ReadsAs("v", m, pieces, digits);
    PrintAfterRead("v", text, m, pieces, digits);
  }

  /** A modified work tree is told by its mark, in what is read and in what is printed. */
  lemma DirtyExample()
    ensures Clean("v1-5-gabc-dirty") == "v1-5-gabc" && EndsWith("v1-5-gabc-dirty", DIRTY)
    ensures RenderLong(Pieces(Some("1"), 5, "abc", true)) == "1-5-gabc-dirty"
    ensures RenderLong(Pieces(None, 5, "abc", true)) == "abc-dirty"
  {
    var text := "v1-5-gabc-dirty";
    assert text[9..] == "-dirty" && text[..9] == "v1-5-gabc";
    assert Render(5) == "5";
    assert "1" + "-" + "5" + "-g" + "abc" + "-dirty" == "1-5-gabc-dirty";
    assert "abc" + "-dirty" == "abc-dirty";
  }

  /** A tag that is nothing but the prefix is lost. */
  lemma BareTagExample(full: string, commits: nat, digits: Digits)
    requires DecimalDigits(digits)
    ensures var pieces := Pieces(Some(""), 5, "abc", false);
            Reads("v", "v-5-gabc", full, commits, Success(pieces), digits) && "v" + RenderLong(pieces) != "v-5-gabc"
  {
    var text, m := "v-5-gabc", Match("v", "5", "abc");
    var pieces := Pieces(Some(""), 5, "abc", false);
    assert "5"[..0] == "" && "v"[1..] == "";
    assert Value("5", digits) == 5;
    assert text == Text(m);
    HexEndIsClean(text);
    assert Splits(Clean(text), m, digits) && ReadsAs("v", m, pieces, digits);
    PrintAfterRead("v", text, m, pieces, digits);
  }
}
