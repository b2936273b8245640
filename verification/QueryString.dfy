/** Reading a Postgres query string into parameters, and printing it with TLS required
    (nabla/db_config.py). */
module QueryString {
  import opened Dicts
  import opened Lists
  import opened Sorting
  import opened TextOrder
  import opened TextTools
  import opened Wrappers

  type Params = map<string, string>

  /** The key and value of one part; a part without '=' or without a key says nothing. */
  function Entry(part: string): Option<(string, string)> {
    var i := IndexOf(part, '=');
    if i == |part| || Strip(part[..i]) == "" then None
    else Some((Strip(part[..i]), Strip(part[i + 1..])))
  }

  /** A part names its key before the first equals sign and its value after it, both stripped; a part without an
      equals sign, or with nothing before it, names none. */
  lemma EntryMeaning(key: string, value: string)
    requires '=' !in key
    ensures Entry(key + "=" + value) == if Strip(key) == "" then None else Some((Strip(key), Strip(value)))
    ensures Entry(key) == None
  {
    IndexOfFirst(key, '=', value);
    var part := key + "=" + value;
    assert key + ['='] + value == part && part[..|key|] == key && part[|key| + 1..] == value;
  }

  function Entries(parts: seq<string>): (entries: seq<Option<(string, string)>>)
    ensures |entries| == |parts|
    ensures forall i :: 0 <= i < |parts| ==> entries[i] == Entry(parts[i])
  {
    if parts == [] then [] else [Entry(parts[0])] + Entries(parts[1..])
  }

  /** The parameters after all parts in order: a later part overrides an earlier one. */
  function ParamsOf(parts: seq<string>): Params {
    FromEntries(Entries(parts))
  }

  predicate IsQuestionMark(c: char) {
    c == '?'
  }

  function Parts(query: string): seq<string> {
    Split(TrimLeft(Strip(query), IsQuestionMark), '&')
  }

  function Parsed(query: Option<string>): Params {
    if query.None? || Strip(query.value) == "" then map[] else ParamsOf(Parts(query.value))
  }

  /** Whitespace around a query, and question marks before it, change nothing. */
  lemma DressedQuery(before: string, marks: string, text: string, after: string)
    requires (forall c :: c in before ==> IsSpace(c)) && (forall c :: c in after ==> IsSpace(c))
    requires (forall c :: c in marks ==> c == '?') && text != "" && Stripped(text) && text[0] != '?'
    ensures Parsed(Some(before + (marks + text) + after)) == Parsed(Some(text))
  {
    hide Split, ParamsOf, Strip, TrimLeft, Stripped;
    MarksTrimmed(marks, text);
    StripPadding(before, marks + text, after);
    MarksTrimmed("", text);
    assert "" + text == text;
    StripStripped(text);
  }

  lemma StripStripped(text: string)
    requires Stripped(text)
    ensures Strip(text) == text
  {
    StripFacts(text);
  }

  lemma MarksTrimmed(marks: string, text: string)
    requires (forall c :: c in marks ==> c == '?') && text != "" && Stripped(text) && text[0] != '?'
    ensures marks + text != "" && Stripped(marks + text) && TrimLeft(marks + text, IsQuestionMark) == text
  {
    var dressed := marks + text;
    assert dressed[0] == (if marks == "" then text[0] else marks[0]) && dressed[|dressed| - 1] == text[|text| - 1];
    assert marks != "" ==> marks[0] in marks;
    forall i | 0 <= i < |marks| ensures dressed[i] == '?' {
      assert marks[i] in marks;
    }
    RunEndsAt(dressed, IsQuestionMark, 0, |marks|);
  }

  method QueryStringToDict(query: Option<string>) returns (out: Params)
    ensures out == Parsed(query)
  {
    if query.None? || Strip(query.value) == "" { return map[]; }
    out := Fill(Entries(Parts(query.value)));
  }

  // ---------------------------------------------------------------- what reading yields

  predicate CleanKey(key: string) {
    key != "" && Stripped(key) && '=' !in key && '&' !in key
  }

  predicate CleanValue(value: string) {
    Stripped(value) && '&' !in value
  }

  predicate Clean(params: Params) {
    forall k :: k in params ==> CleanKey(k) && CleanValue(params[k])
  }

  lemma StripGivesClean(key: string, value: string)
    requires '=' !in key && '&' !in key && '&' !in value
    ensures Strip(key) != "" ==> CleanKey(Strip(key))
    ensures CleanValue(Strip(value))
  {
    StripFacts(key);
    StripFacts(value);
    StripAddsNothing(key, '=');
    StripAddsNothing(key, '&');
    StripAddsNothing(value, '&');
  }

  lemma EntryIsClean(part: string)
    requires '&' !in part && Entry(part).Some?
    ensures CleanKey(Entry(part).value.0) && CleanValue(Entry(part).value.1)
  {
    var i := IndexOf(part, '=');
    StripGivesClean(part[..i], part[i + 1..]);
  }

  lemma PartsGiveClean(parts: seq<string>)
    requires forall i :: 0 <= i < |parts| ==> '&' !in parts[i]
    ensures Clean(ParamsOf(parts))
  {
    var entries := Entries(parts);
    forall i | 0 <= i < |parts| && entries[i].Some?
      ensures CleanKey(entries[i].value.0) && CleanValue(entries[i].value.1)
    {
      EntryIsClean(parts[i]);
    }
    EntriesGiveClean(entries);
  }

  lemma {:induction false} EntriesGiveClean(entries: seq<Option<(string, string)>>)
    requires forall i :: 0 <= i < |entries| && entries[i].Some? ==>
               CleanKey(entries[i].value.0) && CleanValue(entries[i].value.1)
    ensures Clean(FromEntries(entries))
  {
    if entries != [] {
      EntriesGiveClean(entries[..|entries| - 1]);
    }
  }

  lemma ParsedIsClean(query: Option<string>)
    ensures Clean(Parsed(query))
  {
    if query.Some? {
      PartsGiveClean(Parts(query.value));
    }
  }

  // ---------------------------------------------------------------- printing

  /** The keys in the order in which they are printed. */
  ghost predicate Listed(keys: seq<string>, params: Params) {
    && Distinct(keys) && Sorted(keys, TextLe)
    && forall k :: k in keys <==> k in params
  }

  function Pair(key: string, params: Params): string
    requires key in params
  {
    key + "=" + params[key]
  }

  function Pairs(keys: seq<string>, params: Params): (parts: seq<string>)
    requires forall k :: k in keys ==> k in params
    ensures |parts| == |keys|
    ensures forall i :: 0 <= i < |keys| ==> parts[i] == Pair(keys[i], params)
  {
    if keys == [] then [] else [Pair(keys[0], params)] + Pairs(keys[1..], params)
  }

  function Printed(keys: seq<string>, params: Params): string
    requires keys != [] && forall k :: k in keys ==> k in params
  {
    Join(Pairs(keys, params), '&')
  }

  method SortedKeys(params: Params) returns (keys: seq<string>)
    ensures Listed(keys, params)
  {
    TextLeIsTotalOrder();
    keys := [];
    var rest := params.Keys;
    while rest != {}
      invariant rest <= params.Keys
      invariant Distinct(keys) && Sorted(keys, TextLe)
      invariant forall k :: k in keys <==> k in params && k !in rest
      decreases |rest|
    {
      var k :| k in rest;
      InsertNew(k, keys);
      keys := Insert(k, keys, TextLe);
      rest := rest - {k};
    }
  }

  lemma InsertNew(k: string, keys: seq<string>)
    requires Distinct(keys) && Sorted(keys, TextLe) && k !in keys
    ensures var more := Insert(k, keys, TextLe);
            Distinct(more) && Sorted(more, TextLe) && forall x :: x in more <==> x == k || x in keys
  {
    TextLeIsTotalOrder();
    InsertSorted(k, keys, TextLe);
    InsertPermutes(k, keys, TextLe);
    SameMembers(Insert(k, keys, TextLe), [k] + keys);
    assert Distinct([k] + keys);
    DistinctByMultiset([k] + keys);
    DistinctByMultiset(Insert(k, keys, TextLe));
  }

  lemma ListedIsUnique(keys: seq<string>, keys': seq<string>, params: Params)
    requires Listed(keys, params) && Listed(keys', params)
    ensures keys == keys'
  {
    TextLeIsTotalOrder();
    DistinctByMultiset(keys);
    DistinctByMultiset(keys');
    assert multiset(keys) == multiset(keys') by {
      forall k ensures multiset(keys)[k] == multiset(keys')[k] {
        assert k in keys <==> k in multiset(keys);
        assert k in keys' <==> k in multiset(keys');
      }
    }
    SortedIsUnique(keys, keys', TextLe);
  }

  // ---------------------------------------------------------------- requiring TLS

  function LowerChar(c: char): char {
    if 'A' <= c <= 'Z' then (c as int + 32) as char else c
  }

  function Lower(s: string): string {
    seq(|s|, i requires 0 <= i < |s| => LowerChar(s[i]))
  }

  predicate IsSslKey(key: string) {
    Lower(key) == "sslmode" || Lower(key) == "ssl"
  }

  predicate HasSsl(params: Params) {
    exists k :: k in params && IsSslKey(k)
  }

  function Secured(params: Params): Params {
    if HasSsl(params) then params else params["sslmode" := "require"]
  }

  /** The key is the word but for the case of its ASCII letters. */
  predicate Spells(key: string, word: string) {
    && |key| == |word|
    && forall i :: 0 <= i < |key| ==>
         key[i] == word[i] || ('A' <= key[i] <= 'Z' && key[i] as int + 32 == word[i] as int)
  }

  lemma SslKeyMeaning(key: string)
    ensures IsSslKey(key) <==> Spells(key, "ssl") || Spells(key, "sslmode")
  {
    SpelledLower(key, "ssl");
    SpelledLower(key, "sslmode");
  }

  lemma SpelledLower(key: string, word: string)
    requires forall i :: 0 <= i < |word| ==> 'a' <= word[i] <= 'z'
    ensures Lower(key) == word <==> Spells(key, word)
  {
    if Lower(key) == word {
      forall i | 0 <= i < |key|
        ensures key[i] == word[i] || ('A' <= key[i] <= 'Z' && key[i] as int + 32 == word[i] as int)
      {
        assert Lower(key)[i] == word[i];
      }
    }
    if Spells(key, word) {
      forall i | 0 <= i < |key| ensures Lower(key)[i] == word[i] {
      }
    }
  }

  lemma SecuredFacts(params: Params)
    ensures HasSsl(Secured(params))
    ensures forall k :: k in params ==> k in Secured(params) && Secured(params)[k] == params[k]
    ensures forall k :: k in Secured(params) && k !in params ==> k == "sslmode" && Secured(params)[k] == "require"
    ensures Secured(params) == params <==> HasSsl(params)
    ensures Clean(params) ==> Clean(Secured(params))
  {
    var key := "sslmode";
    assert Lower(key) == key;
    assert IsSslKey(key);
    assert CleanKey(key) && CleanValue("require");
    assert !HasSsl(params) ==> key in Secured(params) && key !in params;
  }

  /** The text prints the parameters, sorted by key. */
  ghost predicate Prints(params: Params, text: string) {
    exists keys :: PrintOrder(keys, params) && text == Printed(keys, params)
  }

  ghost predicate PrintOrder(keys: seq<string>, params: Params) {
    keys != [] && Listed(keys, params)
  }

  /** There always is a result: the source's answer for no parameters at all cannot occur. */
  method MergeSslmodeRequire(query: Option<string>) returns (merged: Option<string>)
    ensures merged.Some? && Prints(Secured(Parsed(query)), merged.value)
  {
    var params := QueryStringToDict(query);
    SecuredFacts(params);
    if !HasSsl(params) {
      params := params["sslmode" := "require"];
    }
    var keys := SortedKeys(params);
    if keys == [] {
      merged := None;
    } else {
      merged := Some(Printed(keys, params));
      assert PrintOrder(keys, params);
    }
  }

  // ---------------------------------------------------------------- reading what was printed

  /** A part that can stand in a printed text: it holds no separator and no whitespace at its ends. */
  predicate SolidPart(part: string) {
    '&' !in part && part != "" && !IsSpace(part[0]) && !IsSpace(part[|part| - 1])
  }

  lemma PairIsSolid(key: string, params: Params)
    requires Clean(params) && key in params
    ensures SolidPart(Pair(key, params)) && Pair(key, params)[0] == key[0]
  {
    SolidPair(key, params[key]);
  }

  lemma SolidPair(key: string, value: string)
    requires CleanKey(key) && CleanValue(value)
    ensures SolidPart(key + "=" + value) && (key + "=" + value)[0] == key[0]
  {
    var pair := key + "=" + value;
    assert pair[|pair| - 1] == if value == "" then '=' else value[|value| - 1];
  }

  predicate Solid(parts: seq<string>) {
    parts != [] && forall i :: 0 <= i < |parts| ==> SolidPart(parts[i])
  }

  lemma PairsAreSolid(keys: seq<string>, params: Params)
    requires Clean(params) && PrintOrder(keys, params)
    ensures Solid(Pairs(keys, params)) && keys[0] != "" && Pairs(keys, params)[0][0] == keys[0][0]
  {
    var parts := Pairs(keys, params);
    forall i | 0 <= i < |parts| ensures SolidPart(parts[i]) {
      assert keys[i] in params;
      PairIsSolid(keys[i], params);
    }
    assert keys[0] in params;
    PairIsSolid(keys[0], params);
  }

  lemma SolidText(parts: seq<string>)
    requires Solid(parts)
    ensures Join(parts, '&') != "" && Stripped(Join(parts, '&')) && Join(parts, '&')[0] == parts[0][0]
  {
    assert SolidPart(parts[0]) && SolidPart(parts[|parts| - 1]);
    JoinEnds(parts, '&');
  }

  /** What a text is read as, once its question marks are gone. */
  lemma TextReads(text: string, parts: seq<string>)
    requires text != "" && Stripped(text) && parts != [] && TrimLeft(text, IsQuestionMark) == Join(parts, '&')
    requires forall i :: 0 <= i < |parts| ==> '&' !in parts[i]
    ensures Parsed(Some(text)) == ParamsOf(parts)
  {
    StripFacts(text);
    SplitOfJoin(parts, '&');
  }

  /** What the entry of a printed pair says, whatever precedes '='. */
  lemma EntryOfPair(key: string, value: string)
    requires '=' !in key && CleanValue(value)
    ensures Entry(key + "=" + value) == if Strip(key) == "" then None else Some((Strip(key), value))
  {
    var part := key + "=" + value;
    IndexOfFirst(key, '=', value);
    assert part[..|key|] == key && part[|key| + 1..] == value;
    StripFacts(value);
  }

  lemma PairsRead(keys: seq<string>, params: Params)
    requires Clean(params) && PrintOrder(keys, params)
    ensures ParamsOf(Pairs(keys, params)) == params
  {
    var entries := Entries(Pairs(keys, params));
    forall i | 0 <= i < |keys| ensures entries[i] == Some((keys[i], params[keys[i]])) {
      EntryOfPair(keys[i], params[keys[i]]);
      StripFacts(keys[i]);
    }
    DistinctEntries(entries, params, keys);
  }

  predicate StartsMarked(key: string) {
    key != "" && key[0] == '?'
  }

  lemma NoMarks(text: string)
    requires !StartsMarked(text)
    ensures TrimLeft(text, IsQuestionMark) == text
  {
  }

  lemma ReadPlain(keys: seq<string>, params: Params)
    requires Clean(params) && PrintOrder(keys, params) && !StartsMarked(keys[0])
    ensures Parsed(Some(Printed(keys, params))) == params
  {
    PairsAreSolid(keys, params);
    SolidReads(Pairs(keys, params));
    PairsRead(keys, params);
  }

  lemma SolidReads(parts: seq<string>)
    requires Solid(parts) && parts[0][0] != '?'
    ensures Parsed(Some(Join(parts, '&'))) == ParamsOf(parts)
  {
    SolidText(parts);
    NoMarks(Join(parts, '&'));
    TextReads(Join(parts, '&'), parts);
  }

  /** The parts that are read when the text loses its leading question marks. */
  function MarkedParts(keys: seq<string>, params: Params): seq<string>
    requires keys != [] && forall k :: k in keys ==> k in params
  {
    [TrimLeft(keys[0], IsQuestionMark) + "=" + params[keys[0]]] + Pairs(keys, params)[1..]
  }

  lemma MarksAreLost(key: string, value: string, rest: seq<string>)
    ensures TrimLeft(Join([key + ("=" + value)] + rest, '&'), IsQuestionMark)
         == Join([TrimLeft(key, IsQuestionMark) + ("=" + value)] + rest, '&')
  {
    JoinHead(key, "=" + value, rest, '&');
    JoinHead(TrimLeft(key, IsQuestionMark), "=" + value, rest, '&');
    TrimLeftStops(key, Join(["=" + value] + rest, '&'), IsQuestionMark);
  }

  lemma PrintedParts(keys: seq<string>, params: Params)
    requires PrintOrder(keys, params)
    ensures var pair := "=" + params[keys[0]];
            && Pairs(keys, params) == [keys[0] + pair] + Pairs(keys, params)[1..]
            && MarkedParts(keys, params) == [TrimLeft(keys[0], IsQuestionMark) + pair] + Pairs(keys, params)[1..]
  {
    assert keys[0] in params;
    HeadAndTail(Pairs(keys, params));
    Regroup(keys[0], "=", params[keys[0]]);
    Regroup(TrimLeft(keys[0], IsQuestionMark), "=", params[keys[0]]);
  }

  lemma BareKey(key: string)
    requires CleanKey(key) && StartsMarked(key)
    ensures var bare := TrimLeft(key, IsQuestionMark); '=' !in bare && '&' !in bare && |Strip(bare)| < |key|
  {
    var n := RunEnd(key, IsQuestionMark, 0);
    SliceAddsNothing(key, n, |key|, '=');
    SliceAddsNothing(key, n, |key|, '&');
    assert n > 0;
    StripFacts(key[n..]);
  }

  lemma MarkedEntries(keys: seq<string>, params: Params, i: nat)
    requires Clean(params) && PrintOrder(keys, params) && StartsMarked(keys[0]) && i < |keys|
    ensures var part := MarkedParts(keys, params)[i]; '&' !in part && !Names(Entry(part), keys[0])
  {
    assert keys[0] in params && keys[i] in params;
    MarkedPartAt(keys, params, i);
    MarkedPartMisses(keys[0], keys[i], params[keys[i]], i == 0, MarkedParts(keys, params)[i]);
  }

  lemma MarkedPartAt(keys: seq<string>, params: Params, i: nat)
    requires i < |keys| && forall k :: k in keys ==> k in params
    ensures MarkedParts(keys, params)[i] ==
            (if i == 0 then TrimLeft(keys[0], IsQuestionMark) else keys[i]) + "=" + params[keys[i]]
  {
  }

  lemma MarkedPartMisses(key: string, other: string, value: string, isFirst: bool, part: string)
    requires CleanKey(other) && CleanValue(value) && StartsMarked(key) && (isFirst <==> other == key)
    requires part == (if isFirst then TrimLeft(key, IsQuestionMark) else other) + "=" + value
    ensures '&' !in part && !Names(Entry(part), key)
  {
    if isFirst {
      BareEntry(key, value);
    } else {
      OtherEntry(key, other, value);
    }
  }

  lemma BareEntry(key: string, value: string)
    requires CleanKey(key) && CleanValue(value) && StartsMarked(key)
    ensures var part := TrimLeft(key, IsQuestionMark) + "=" + value; '&' !in part && !Names(Entry(part), key)
  {
    BareKey(key);
    EntryOfPair(TrimLeft(key, IsQuestionMark), value);
  }

  lemma OtherEntry(key: string, other: string, value: string)
    requires CleanKey(other) && CleanValue(value) && other != key
    ensures '&' !in other + "=" + value && !Names(Entry(other + "=" + value), key)
  {
    SolidPair(other, value);
    CleanEntry(other + "=" + value, other, value);
  }

  lemma MarkedPartsMiss(keys: seq<string>, params: Params)
    requires Clean(params) && PrintOrder(keys, params) && StartsMarked(keys[0])
    ensures keys[0] !in ParamsOf(MarkedParts(keys, params))
    ensures forall i :: 0 <= i < |MarkedParts(keys, params)| ==> '&' !in MarkedParts(keys, params)[i]
  {
    var parts := MarkedParts(keys, params);
    forall i | 0 <= i < |parts| ensures '&' !in parts[i] && !Names(Entries(parts)[i], keys[0]) {
      MarkedEntries(keys, params, i);
    }
    KeysComeFromEntries(Entries(parts), keys[0]);
  }

  lemma ReadMarked(keys: seq<string>, params: Params)
    requires Clean(params) && PrintOrder(keys, params) && StartsMarked(keys[0])
    ensures keys[0] !in Parsed(Some(Printed(keys, params)))
  {
    PairsAreSolid(keys, params);
    PrintedLosesMarks(keys, params);
    MarkedPartsMiss(keys, params);
    MarkedReads(Pairs(keys, params), MarkedParts(keys, params));
  }

  lemma PrintedLosesMarks(keys: seq<string>, params: Params)
    requires PrintOrder(keys, params)
    ensures TrimLeft(Join(Pairs(keys, params), '&'), IsQuestionMark) == Join(MarkedParts(keys, params), '&')
  {
    PrintedParts(keys, params);
    assert keys[0] in params;
    MarksAreLost(keys[0], params[keys[0]], Pairs(keys, params)[1..]);
  }

  lemma MarkedReads(parts: seq<string>, marked: seq<string>)
    requires Solid(parts) && marked != [] && forall i :: 0 <= i < |marked| ==> '&' !in marked[i]
    requires TrimLeft(Join(parts, '&'), IsQuestionMark) == Join(marked, '&')
    ensures Parsed(Some(Join(parts, '&'))) == ParamsOf(marked)
  {
    SolidText(parts);
    TextReads(Join(parts, '&'), marked);
  }

  /** Reading the printed parameters gives them back exactly when the first printed key does not start
      with a question mark. */
  lemma ReadAfterPrint(keys: seq<string>, params: Params)
    requires Clean(params) && PrintOrder(keys, params)
    ensures Parsed(Some(Printed(keys, params))) == params <==> !StartsMarked(keys[0])
  {
    if !StartsMarked(keys[0]) {
      ReadPlain(keys, params);
    } else {
      ReadMarked(keys, params);
      assert keys[0] in params;
    }
  }

  /** Merging twice is merging once, exactly under the same condition. */
  lemma MergeIsIdempotent(query: Option<string>, params: Params, keys: seq<string>, twice: string)
    requires params == Secured(Parsed(query)) && PrintOrder(keys, params)
    requires Prints(Secured(Parsed(Some(Printed(keys, params)))), twice)
    ensures twice == Printed(keys, params) <==> !StartsMarked(keys[0])
  {
    ParsedIsClean(query);
    SecuredFacts(Parsed(query));
    ReprintSame(keys, params, Parsed(Some(Printed(keys, params))), twice);
  }

  lemma ReprintSame(keys: seq<string>, params: Params, again: Params, twice: string)
    requires Clean(params) && HasSsl(params) && PrintOrder(keys, params)
    requires again == Parsed(Some(Printed(keys, params))) && Prints(Secured(again), twice)
    ensures twice == Printed(keys, params) <==> !StartsMarked(keys[0])
  {
    ParsedIsClean(Some(Printed(keys, params)));
    SecuredFacts(again);
    var keys' :| PrintOrder(keys', Secured(again)) && twice == Printed(keys', Secured(again));
    if !StartsMarked(keys[0]) {
      ReadPlain(keys, params);
      ListedIsUnique(keys, keys', params);
    } else {
      ReadMarked(keys, params);
      assert keys'[0] in Secured(again) && keys[0] !in Secured(again);
      FirstKey(keys, params);
      FirstKey(keys', Secured(again));
    }
  }

  lemma FirstKey(keys: seq<string>, params: Params)
    requires Clean(params) && PrintOrder(keys, params)
    ensures var text := Printed(keys, params); text[..IndexOf(text, '=')] == keys[0]
  {
    var key, parts := keys[0], Pairs(keys, params);
    var rest := params[key] + (if |parts| == 1 then "" else "&" + Join(parts[1..], '&'));
    assert Printed(keys, params) == key + "=" + rest;
    assert key in params;
    IndexOfFirst(key, '=', rest);
  }

  /** A query whose first printed key starts with a question mark: its parameters do not survive printing and
      reading, and merging again prints another text. */
  lemma MarkedKeyExample()
    ensures var params: Params := map["?a" := "1", "sslmode" := "require"];
            && Secured(Parsed(Some("&?a=1"))) == params && PrintOrder(["?a", "sslmode"], params)
            && Parsed(Some(Printed(["?a", "sslmode"], params))) != params
            && forall twice :: Prints(Secured(Parsed(Some(Printed(["?a", "sslmode"], params)))), twice) ==>
                 twice != Printed(["?a", "sslmode"], params)
  {
    var keys := ["?a", "sslmode"];
    var params: Params := map["?a" := "1", "sslmode" := "require"];
    MarkedKeyRead();
    MarkedKeyOrder(params);
    ReadAfterPrint(keys, params);
    forall twice | Prints(Secured(Parsed(Some(Printed(keys, params)))), twice) ensures twice != Printed(keys, params) {
      MergeIsIdempotent(Some("&?a=1"), params, keys, twice);
    }
  }

  lemma MarkedKeyOrder(params: Params)
    requires params == map["?a" := "1", "sslmode" := "require"]
    ensures Clean(params) && PrintOrder(["?a", "sslmode"], params)
  {
    var a, b := "?a", "sslmode";
    assert TextLe(a, b);
    assert CleanKey(a) && CleanKey(b) && CleanValue("1") && CleanValue("require");
  }

  lemma MarkedKeyRead()
    ensures Secured(Parsed(Some("&?a=1"))) == map["?a" := "1", "sslmode" := "require"]
  {
    MarkedKeyParts();
    MarkedKeyEntries();
    MarkedKeySecured(map["?a" := "1"]);
  }

  lemma MarkedKeySecured(params: Params)
    requires params == map["?a" := "1"]
    ensures Secured(params) == map["?a" := "1", "sslmode" := "require"]
  {
    assert Lower("?a")[0] == '?';
    assert !HasSsl(params);
  }

  lemma MarkedKeyParts()
    ensures Strip("&?a=1") != "" && Parts("&?a=1") == ["", "?a=1"]
  {
    TwoPartsRead("&?a=1", "", "?a=1");
  }

  lemma TwoPartsRead(query: string, first: string, second: string)
    requires query == first + ['&'] + second && '&' !in first && '&' !in second
    requires Stripped(query) && !StartsMarked(query)
    ensures Strip(query) == query && Parts(query) == [first, second]
  {
    PlainParts(query);
    SplitTwo(first, second);
  }

  lemma PlainParts(query: string)
    requires Stripped(query) && !StartsMarked(query)
    ensures Strip(query) == query && Parts(query) == Split(query, '&')
  {
    StripFacts(query);
    NoMarks(query);
  }

  lemma SplitTwo(first: string, second: string)
    requires '&' !in first && '&' !in second
    ensures Split(first + ['&'] + second, '&') == [first, second]
  {
    SplitFirst(first, second, '&');
    SplitAlone(second, '&');
  }

  lemma MarkedKeyEntries()
    ensures ParamsOf(["", "?a=1"]) == map["?a" := "1"]
  {
    MarkedKeyEntry();
    NoEntry();
    TwoParts("", "?a=1", ("?a", "1"));
  }

  lemma MarkedKeyEntry()
    ensures Entry("?a=1") == Some(("?a", "1"))
  {
    CleanEntry("?a=1", "?a", "1");
  }

  lemma CleanEntry(part: string, key: string, value: string)
    requires part == key + "=" + value && CleanKey(key) && CleanValue(value)
    ensures Entry(part) == Some((key, value))
  {
    EntryOfPair(key, value);
    StripFacts(key);
  }

  lemma NoEntry()
    ensures Entry("") == None
  {
  }

  lemma TwoParts(first: string, second: string, entry: (string, string))
    requires Entry(first) == None && Entry(second) == Some(entry)
    ensures ParamsOf([first, second]) == map[entry.0 := entry.1]
  {
    OneOfTwo(Entries([first, second]), entry);
  }
}
