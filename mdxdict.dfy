/**
 * MdxDict: the queries of an .mdx dictionary, over the searches of Dict.
 * Lookup and Fetch decode a keyword's record with the dictionary's encoding.
 * Associate gives the keywords of the key block that the associate-mode
 * search stops in; Prefix and Suggest filter those, and FuzzySearch keeps the
 * close ones, orders them stably by edit distance and keeps the first few.
 */
module MdxDict {
  import opened Common
  import opened Records
  import Utils
  import Dict

  // ---------------------------------------------------------------------------
  // LINQ Where, and order kept

  /** LINQ `Where`: the elements that satisfy `p`, in their order. */
  function Filter<T(==,!new)>(s: seq<T>, p: T -> bool): (r: seq<T>)
    ensures |r| <= |s|
  {
    if s == [] then []
    else Filter(s[..|s| - 1], p) + (if p(s[|s| - 1]) then [s[|s| - 1]] else [])
  }

  /** `Where` keeps exactly the elements that satisfy `p`. */
  lemma {:induction false} FilterMembers<T(!new)>(s: seq<T>, p: T -> bool)
    ensures forall x :: x in Filter(s, p) <==> x in s && p(x)
    decreases |s|
  {
    if s != [] {
      var s0 := s[..|s| - 1];
      assert s == s0 + [s[|s| - 1]];
      FilterMembers(s0, p);
    }
  }

  /** Filtering one more element at the end adds it exactly when it qualifies. */
  lemma FilterSnoc<T(!new)>(s: seq<T>, x: T, p: T -> bool)
    ensures Filter(s + [x], p) == Filter(s, p) + (if p(x) then [x] else [])
  {
    assert (s + [x])[..|s|] == s;
  }

  /** `a` is `b` with some of its elements left out and the others in their order. */
  predicate SubsequenceOf<T(==)>(a: seq<T>, b: seq<T>)
    decreases |b|
  {
    if a == [] then true
    else if b == [] then false
    else if a[|a| - 1] == b[|b| - 1] then SubsequenceOf(a[..|a| - 1], b[..|b| - 1])
    else SubsequenceOf(a, b[..|b| - 1])
  }

  /** A subsequence stays one when the longer sequence grows at the end. */
  lemma {:induction false} SubsequenceExtend<T>(a: seq<T>, b: seq<T>, y: T)
    requires SubsequenceOf(a, b)
    ensures SubsequenceOf(a, b + [y])
    decreases |b|, 1
  {
    assert (b + [y])[..|b|] == b;
    if a != [] && a[|a| - 1] == y {
      SubsequenceDropLast(a, b);
    }
  }

  /** Dropping the last element of a subsequence leaves a subsequence. */
  lemma {:induction false} SubsequenceDropLast<T>(a: seq<T>, b: seq<T>)
    requires a != [] && SubsequenceOf(a, b)
    ensures SubsequenceOf(a[..|a| - 1], b)
    decreases |b|, 0
  {
    var b0 := b[..|b| - 1];
    assert b == b0 + [b[|b| - 1]];
    if a[|a| - 1] == b[|b| - 1] {
      SubsequenceExtend(a[..|a| - 1], b0, b[|b| - 1]);
    } else {
      SubsequenceDropLast(a, b0);
      SubsequenceExtend(a[..|a| - 1], b0, b[|b| - 1]);
    }
  }

  /** What `Where` keeps is a subsequence of what it was given. */
  lemma {:induction false} FilterSubsequence<T(!new)>(s: seq<T>, p: T -> bool)
    ensures SubsequenceOf(Filter(s, p), s)
    decreases |s|
  {
    if s != [] {
      var s0, x := s[..|s| - 1], s[|s| - 1];
      var f0 := Filter(s0, p);
      FilterSubsequence(s0, p);
      assert s == s0 + [x];
      if p(x) {
        assert Filter(s, p) == f0 + [x];
        assert (f0 + [x])[..|f0|] == f0;
      } else {
        assert Filter(s, p) == f0;
        SubsequenceExtend(f0, s0, x);
      }
    }
  }

  // ---------------------------------------------------------------------------
  // Results

  /** What Lookup and Fetch return: a text and the decoded definition, if any. */
  datatype Definition = Definition(keyText: Text, definition: Option<Text>)

  /** FuzzyWord: a keyword the fuzzy search keeps, with its edit distance `ed` from the word. */
  datatype FuzzyWord = FuzzyWord(recordStart: nat, recordEnd: int, keyText: Text, keyBlockIdx: int, ed: int)

  /** The keyword a fuzzy word was copied from. */
  function Item(f: FuzzyWord): KeyWordItem
  {
    KeyWordItem(f.recordStart, f.recordEnd, f.keyText, f.keyBlockIdx)
  }

  // ---------------------------------------------------------------------------
  // Lookup, Fetch and FetchDefinition

  /** The keyword's record bytes decoded with the dictionary's encoding. */
  function Decoded(s: Dict.Snapshot, item: KeyWordItem): Result<Text>
  {
    var record :- Dict.RecordOfSnapshot(s, item);
    Success(s.host.decode(s.meta.encoding, record))
  }

  /**
   * Fetch (and FetchDefinition, which is the same): the keyword's own text
   * with its decoded record; a record that cannot be read fails.
   */
  function FetchOf(s: Dict.Snapshot, item: KeyWordItem): (r: Result<Definition>)
    ensures r.Success? <==> Dict.RecordOfSnapshot(s, item).Success?
    ensures r.Success? ==> r.value.keyText == item.keyText && r.value.definition.Some?
  {
    var definition :- Decoded(s, item);
    Success(Definition(item.keyText, Some(definition)))
  }

  /**
   * Lookup: the word with the decoded record of the keyword the exact search
   * finds, or with none when the search finds no keyword of that text. The
   * text returned is always the word asked for, never the keyword's.
   */
  function LookupOf(s: Dict.Snapshot, word: Text): (r: Result<Definition>)
    ensures s.keywords == [] ==> r.Failure?
    ensures r.Success? ==> r.value.keyText == word
    ensures (&& r.Success? && r.value.definition.Some?)
      ==> s.keywords != [] && s.keywords[Dict.KeywordIndex(s.keywords, word)].keyText == word
  {
    var hit :- Dict.KeywordHit(s.keywords, word, false);
    if hit.None? then Success(Definition(word, None))
    else
      var definition :- Decoded(s, hit.value);
      Success(Definition(word, Some(definition)))
  }

  /** On a sorted keyword list Lookup gives no definition exactly when no keyword has the word's text. */
  lemma LookupAbsent(s: Dict.Snapshot, word: Text)
    requires SortedByText(s.keywords) && s.keywords != []
    ensures LookupOf(s, word) == Success(Definition(word, None))
            <==> forall k :: 0 <= k < |s.keywords| ==> s.keywords[k].keyText != word
  {
    Dict.KeywordMissing(s.keywords, word);
  }

  /**
   * On a sorted keyword list that holds the word, Lookup is Fetch of the
   * keyword it finds, which has the word's text.
   */
  lemma LookupIsFetch(s: Dict.Snapshot, word: Text, k: nat)
    requires SortedByText(s.keywords) && k < |s.keywords| && s.keywords[k].keyText == word
    ensures var hit := s.keywords[Dict.KeywordIndex(s.keywords, word)];
      hit.keyText == word && LookupOf(s, word) == FetchOf(s, hit)
  {
    Dict.KeywordFound(s.keywords, word, k);
  }

  // ---------------------------------------------------------------------------
  // Associate and Prefix

  /** The test Associate filters the keyword list by: the keyword is in key block `idx`. */
  function InBlock(idx: int): KeyWordItem -> bool
  {
    (k: KeyWordItem) => k.keyBlockIdx == idx
  }

  /**
   * Associate: the keywords of the key block the associate-mode search
   * stops in, in list order, among them the keyword it stops at. An empty
   * keyword list fails.
   */
  function AssociateOf(s: Dict.Snapshot, phrase: Text): (r: Result<seq<KeyWordItem>>)
    ensures r.Failure? <==> s.keywords == []
    ensures r.Success? ==> var hit := s.keywords[Dict.KeywordIndex(s.keywords, phrase)];
      && hit in r.value
      && forall k :: k in r.value <==> k in s.keywords && k.keyBlockIdx == hit.keyBlockIdx
  {
    var hit :- Dict.KeywordHit(s.keywords, phrase, true);
    if hit.None? then Success([])
    else
      FilterMembers(s.keywords, InBlock(hit.value.keyBlockIdx));
      Success(Filter(s.keywords, InBlock(hit.value.keyBlockIdx)))
  }

  /** Associate keeps the keyword list's order. */
  lemma AssociateInOrder(s: Dict.Snapshot, phrase: Text)
    requires AssociateOf(s, phrase).Success?
    ensures SubsequenceOf(AssociateOf(s, phrase).value, s.keywords)
  {
    var m := Dict.KeywordIndex(s.keywords, phrase);
    FilterSubsequence(s.keywords, InBlock(s.keywords[m].keyBlockIdx));
  }

  /** The test Prefix filters by: the host's StartsWith of the keyword's text and the prefix. */
  function StartsWithPrefix(host: Host, prefix: Text): KeyWordItem -> bool
  {
    (k: KeyWordItem) => host.startsWith(k.keyText, prefix)
  }

  /** Prefix: the keywords Associate gives for the prefix whose text starts with it. */
  function PrefixOf(s: Dict.Snapshot, prefix: Text): (r: Result<seq<KeyWordItem>>)
    ensures r.Success? <==> AssociateOf(s, prefix).Success?
    ensures r.Success? ==> forall k :: k in r.value <==> k in AssociateOf(s, prefix).value && s.host.startsWith(k.keyText, prefix)
  {
    var assoc :- AssociateOf(s, prefix);
    FilterMembers(assoc, StartsWithPrefix(s.host, prefix));
    Success(Filter(assoc, StartsWithPrefix(s.host, prefix)))
  }

  /** Prefix is a subsequence of Associate. */
  lemma PrefixInOrder(s: Dict.Snapshot, prefix: Text)
    requires PrefixOf(s, prefix).Success?
    ensures SubsequenceOf(PrefixOf(s, prefix).value, AssociateOf(s, prefix).value)
  {
    FilterSubsequence(AssociateOf(s, prefix).value, StartsWithPrefix(s.host, prefix));
  }

  // ---------------------------------------------------------------------------
  // Suggest and FuzzySearch

  /** The distance Suggest and FuzzySearch measure: LevenshteinDistance of the stripped key and the stripped phrase. */
  function KeyDistance(host: Host, key: Text, phrase: Text): nat
  {
    Utils.Levenshtein(host.strip(key), host.strip(phrase))
  }

  /** The test Suggest filters by: the keyword is within `distance` of the phrase. */
  function Near(host: Host, phrase: Text, distance: nat): KeyWordItem -> bool
  {
    (k: KeyWordItem) => KeyDistance(host, k.keyText, phrase) <= distance
  }

  /** Suggest: the keywords Associate gives for the phrase that lie within `distance` of it. */
  function SuggestOf(s: Dict.Snapshot, phrase: Text, distance: nat): (r: Result<seq<KeyWordItem>>)
    ensures r.Success? <==> AssociateOf(s, phrase).Success?
    ensures r.Success? ==> forall k :: k in r.value <==> k in AssociateOf(s, phrase).value && KeyDistance(s.host, k.keyText, phrase) <= distance
  {
    var assoc :- AssociateOf(s, phrase);
    FilterMembers(assoc, Near(s.host, phrase, distance));
    Success(Filter(assoc, Near(s.host, phrase, distance)))
  }

  /** Suggest is a subsequence of Associate. */
  lemma SuggestInOrder(s: Dict.Snapshot, phrase: Text, distance: nat)
    requires SuggestOf(s, phrase, distance).Success?
    ensures SubsequenceOf(SuggestOf(s, phrase, distance).value, AssociateOf(s, phrase).value)
  {
    FilterSubsequence(AssociateOf(s, phrase).value, Near(s.host, phrase, distance));
  }

  /** The fuzzy word of a keyword: its offsets, text and key block, with the distance. */
  function Fuzzy(item: KeyWordItem, ed: int): (f: FuzzyWord)
    ensures Item(f) == item && f.ed == ed
  {
    FuzzyWord(item.recordStart, item.recordEnd, item.keyText, item.keyBlockIdx, ed)
  }

  /** The fuzzy search's loop: a fuzzy word for each keyword within `distance` of the word, in order. */
  function Candidates(host: Host, assoc: seq<KeyWordItem>, word: Text, distance: nat): (r: seq<FuzzyWord>)
    ensures |r| <= |assoc|
  {
    if assoc == [] then []
    else
      var item := assoc[|assoc| - 1];
      var ed := KeyDistance(host, item.keyText, word);
      Candidates(host, assoc[..|assoc| - 1], word, distance) + (if ed <= distance then [Fuzzy(item, ed)] else [])
  }

  /** The candidates are the keywords within `distance` of the word, each with its distance. */
  lemma {:induction false} CandidatesMembers(host: Host, assoc: seq<KeyWordItem>, word: Text, distance: nat)
    ensures var r := Candidates(host, assoc, word, distance);
      && (forall f :: f in r ==> Item(f) in assoc && f.ed == KeyDistance(host, f.keyText, word) && f.ed <= distance)
      && forall k :: (k in assoc && KeyDistance(host, k.keyText, word) <= distance)
                     ==> Fuzzy(k, KeyDistance(host, k.keyText, word)) in r
    decreases |assoc|
  {
    if assoc != [] {
      var a0 := assoc[..|assoc| - 1];
      assert assoc == a0 + [assoc[|assoc| - 1]];
      CandidatesMembers(host, a0, word, distance);
    }
  }

  /** Fuzzy words in nondecreasing order of distance. */
  predicate SortedByEd(s: seq<FuzzyWord>)
  {
    forall i, j :: 0 <= i < j < |s| ==> s[i].ed <= s[j].ed
  }

  /** `x` inserted after the last elements, from the end, whose distance is above its own. */
  function InsertByEd(s: seq<FuzzyWord>, x: FuzzyWord): (r: seq<FuzzyWord>)
    ensures |r| == |s| + 1
  {
    if s == [] || s[|s| - 1].ed <= x.ed then s + [x]
    else InsertByEd(s[..|s| - 1], x) + [s[|s| - 1]]
  }

  /** LINQ OrderBy on the distance: a stable sort that inserts each element in turn. */
  function SortByEd(s: seq<FuzzyWord>): (r: seq<FuzzyWord>)
    ensures |r| == |s|
  {
    if s == [] then []
    else InsertByEd(SortByEd(s[..|s| - 1]), s[|s| - 1])
  }

  /** Inserting adds `x` and nothing else. */
  lemma {:induction false} InsertByEdPermutes(s: seq<FuzzyWord>, x: FuzzyWord)
    ensures multiset(InsertByEd(s, x)) == multiset(s) + multiset{x}
    decreases |s|
  {
    if !(s == [] || s[|s| - 1].ed <= x.ed) {
      var s0 := s[..|s| - 1];
      assert s == s0 + [s[|s| - 1]];
      InsertByEdPermutes(s0, x);
    }
  }

  /** Inserting into a sorted sequence keeps it sorted. */
  lemma {:induction false} InsertByEdSorted(s: seq<FuzzyWord>, x: FuzzyWord)
    requires SortedByEd(s)
    ensures SortedByEd(InsertByEd(s, x))
    decreases |s|
  {
    if !(s == [] || s[|s| - 1].ed <= x.ed) {
      var s0, y := s[..|s| - 1], s[|s| - 1];
      assert s == s0 + [y];
      var r0 := InsertByEd(s0, x);
      InsertByEdSorted(s0, x);
      InsertByEdPermutes(s0, x);
      forall i | 0 <= i < |r0|
        ensures r0[i].ed <= y.ed
      {
        assert r0[i] in multiset(r0);
        assert r0[i] in multiset(s0) || r0[i] == x;
      }
    }
  }

  /** The sort gives its input back in nondecreasing order of distance. */
  lemma {:induction false} SortByEdSorted(s: seq<FuzzyWord>)
    ensures SortedByEd(SortByEd(s))
    ensures multiset(SortByEd(s)) == multiset(s)
    decreases |s|
  {
    if s != [] {
      var s0, x := s[..|s| - 1], s[|s| - 1];
      assert s == s0 + [x];
      SortByEdSorted(s0);
      InsertByEdSorted(SortByEd(s0), x);
      InsertByEdPermutes(SortByEd(s0), x);
    }
  }

  /** The fuzzy words of distance `e`. */
  function WithEd(e: int): FuzzyWord -> bool
  {
    (f: FuzzyWord) => f.ed == e
  }

  /** Inserting puts `x` after every element of its own distance. */
  lemma {:induction false} InsertByEdStable(s: seq<FuzzyWord>, x: FuzzyWord, e: int)
    ensures Filter(InsertByEd(s, x), WithEd(e)) == Filter(s, WithEd(e)) + (if x.ed == e then [x] else [])
    decreases |s|
  {
    var p := WithEd(e);
    if s == [] || s[|s| - 1].ed <= x.ed {
      FilterSnoc(s, x, p);
    } else {
      var s0, y := s[..|s| - 1], s[|s| - 1];
      assert s == s0 + [y];
      var r0 := InsertByEd(s0, x);
      assert InsertByEd(s, x) == r0 + [y];
      InsertByEdStable(s0, x, e);
      FilterSnoc(r0, y, p);
      FilterSnoc(s0, y, p);
      var f0 := Filter(s0, p);
      if y.ed == e {
        assert Filter(r0 + [y], p) == f0 + [y];
      } else if x.ed == e {
        assert Filter(r0 + [y], p) == f0 + [x];
      } else {
        assert Filter(r0 + [y], p) == f0;
      }
    }
  }

  /** The sort is stable: the fuzzy words of each distance keep their order. */
  lemma {:induction false} SortByEdStable(s: seq<FuzzyWord>, e: int)
    ensures Filter(SortByEd(s), WithEd(e)) == Filter(s, WithEd(e))
    decreases |s|
  {
    if s != [] {
      var s0, x := s[..|s| - 1], s[|s| - 1];
      assert s == s0 + [x];
      SortByEdStable(s0, e);
      InsertByEdStable(SortByEd(s0), x, e);
      FilterSnoc(s0, x, WithEd(e));
    }
  }

  /** A prefix of a sequence holds only what the sequence holds. */
  lemma TakeMembers<T>(s: seq<T>, n: int)
    ensures forall x :: x in Take(s, n) ==> x in s
  {
  }

  /**
   * FuzzySearch: the fuzzy words of the keywords Associate gives that lie
   * within `distance` of the word, ordered by distance and cut to
   * `fuzzySize` (none for a size of zero or less).
   */
  function FuzzyOf(s: Dict.Snapshot, word: Text, fuzzySize: int, distance: nat): (r: Result<seq<FuzzyWord>>)
    ensures r.Success? <==> AssociateOf(s, word).Success?
    ensures r.Success? ==> |r.value| <= if fuzzySize <= 0 then 0 else fuzzySize
  {
    var assoc :- AssociateOf(s, word);
    Success(Take(SortByEd(Candidates(s.host, assoc, word, distance)), fuzzySize))
  }

  /**
   * What FuzzySearch returns is sorted by distance, and each entry is a
   * keyword Associate gives with its distance from the word, within the bound.
   */
  lemma FuzzyMembers(s: Dict.Snapshot, word: Text, fuzzySize: int, distance: nat)
    requires FuzzyOf(s, word, fuzzySize, distance).Success?
    ensures var r := FuzzyOf(s, word, fuzzySize, distance).value;
      && SortedByEd(r)
      && forall f :: f in r ==>
           && Item(f) in AssociateOf(s, word).value
           && f.ed == KeyDistance(s.host, f.keyText, word) && f.ed <= distance
  {
    var assoc := AssociateOf(s, word).value;
    var cands := Candidates(s.host, assoc, word, distance);
    CandidatesMembers(s.host, assoc, word, distance);
    assert FuzzyOf(s, word, fuzzySize, distance).value == Take(SortByEd(cands), fuzzySize);
    SortedPrefix(cands, fuzzySize);
  }

  /** A prefix of the sorted candidates is sorted and holds only candidates. */
  lemma SortedPrefix(cands: seq<FuzzyWord>, n: int)
    ensures SortedByEd(Take(SortByEd(cands), n))
    ensures forall f :: f in Take(SortByEd(cands), n) ==> f in cands
  {
    SortByEdSorted(cands);
    var sorted := SortByEd(cands);
    TakeMembers(sorted, n);
    forall f | f in Take(sorted, n)
      ensures f in cands
    {
      assert f in multiset(sorted);
    }
  }

  /** What the fuzzy search drops for want of room is no closer than anything it keeps. */
  lemma FuzzyKeepsClosest(s: Dict.Snapshot, word: Text, fuzzySize: int, distance: nat, f: FuzzyWord, c: FuzzyWord)
    requires FuzzyOf(s, word, fuzzySize, distance).Success?
    requires f in FuzzyOf(s, word, fuzzySize, distance).value
    requires c in Candidates(s.host, AssociateOf(s, word).value, word, distance) && c.ed < f.ed
    ensures c in FuzzyOf(s, word, fuzzySize, distance).value
  {
    var cands := Candidates(s.host, AssociateOf(s, word).value, word, distance);
    SortByEdSorted(cands);
    var sorted := SortByEd(cands);
    var kept := Take(sorted, fuzzySize);
    assert kept == FuzzyOf(s, word, fuzzySize, distance).value;
    assert c in multiset(sorted);
    KeptBefore(sorted, fuzzySize, f, c);
  }

  /** In a sorted sequence, what lies closer than an element of a prefix lies in the prefix. */
  lemma KeptBefore(sorted: seq<FuzzyWord>, n: int, f: FuzzyWord, c: FuzzyWord)
    requires SortedByEd(sorted) && f in Take(sorted, n) && c in sorted && c.ed < f.ed
    ensures c in Take(sorted, n)
  {
    var kept := Take(sorted, n);
    var i :| 0 <= i < |kept| && kept[i] == f;
    var j :| 0 <= j < |sorted| && sorted[j] == c;
    assert kept[i] == sorted[i];
    assert j < i;
    assert kept[j] == c;
  }

  // ---------------------------------------------------------------------------
  // The queries on an open dictionary

  /** Lookup, on an open dictionary. */
  method Lookup(d: Dict.Dict, word: Text) returns (r: Result<Definition>)
    ensures r == LookupOf(d.State(), word)
  {
    var hit :- d.LookupKeyBlockByWord(word, false);
    if hit.None? {
      return Success(Definition(word, None));
    }
    var record :- d.LookupRecordByKeyBlock(hit.value);
    return Success(Definition(word, Some(d.host.decode(d.meta.encoding, record))));
  }

  /** Fetch and FetchDefinition, on an open dictionary. */
  method Fetch(d: Dict.Dict, item: KeyWordItem) returns (r: Result<Definition>)
    ensures r == FetchOf(d.State(), item)
  {
    var record :- d.LookupRecordByKeyBlock(item);
    return Success(Definition(item.keyText, Some(d.host.decode(d.meta.encoding, record))));
  }

  /** Associate, on an open dictionary. */
  method Associate(d: Dict.Dict, phrase: Text) returns (r: Result<seq<KeyWordItem>>)
    ensures r == AssociateOf(d.State(), phrase)
  {
    var hit :- d.LookupKeyBlockByWord(phrase, true);
    if hit.None? {
      return Success([]);
    }
    return Success(Filter(d.keywordList, InBlock(hit.value.keyBlockIdx)));
  }

  /** Prefix, on an open dictionary. */
  method Prefix(d: Dict.Dict, prefix: Text) returns (r: Result<seq<KeyWordItem>>)
    ensures r == PrefixOf(d.State(), prefix)
  {
    var assoc :- Associate(d, prefix);
    return Success(Filter(assoc, StartsWithPrefix(d.host, prefix)));
  }

  /** Suggest, on an open dictionary: one pass over Associate's keywords. */
  method Suggest(d: Dict.Dict, phrase: Text, distance: nat) returns (r: Result<seq<KeyWordItem>>)
    ensures r == SuggestOf(d.State(), phrase, distance)
  {
    var assoc :- Associate(d, phrase);
    var stripped := d.host.strip(phrase);
    var suggestions: seq<KeyWordItem> := [];
    for i := 0 to |assoc|
      invariant suggestions == Filter(assoc[..i], Near(d.host, phrase, distance))
    {
      var key := d.host.strip(assoc[i].keyText);
      var ed := Utils.LevenshteinDistance(key, stripped);
      FilterSnoc(assoc[..i], assoc[i], Near(d.host, phrase, distance));
      assert assoc[..i + 1] == assoc[..i] + [assoc[i]];
      if ed <= distance {
        suggestions := suggestions + [assoc[i]];
      }
    }
    assert assoc[..|assoc|] == assoc;
    return Success(suggestions);
  }

  /** FuzzySearch, on an open dictionary: one pass over Associate's keywords, then the sort and the cut. */
  method FuzzySearch(d: Dict.Dict, word: Text, fuzzySize: int, distance: nat) returns (r: Result<seq<FuzzyWord>>)
    ensures r == FuzzyOf(d.State(), word, fuzzySize, distance)
  {
    var assoc :- Associate(d, word);
    var fuzzyWords := FuzzyWords(d.host, assoc, word, distance);
    return Success(Take(SortByEd(fuzzyWords), fuzzySize));
  }

  /** The loop of FuzzySearch: each keyword's distance from the word, and the close ones kept in order. */
  method FuzzyWords(host: Host, assoc: seq<KeyWordItem>, word: Text, distance: nat) returns (fuzzyWords: seq<FuzzyWord>)
    ensures fuzzyWords == Candidates(host, assoc, word, distance)
  {
    var stripped := host.strip(word);
    fuzzyWords := [];
    for i := 0 to |assoc|
      invariant fuzzyWords == Candidates(host, assoc[..i], word, distance)
    {
      var item := assoc[i];
      var key := host.strip(item.keyText);
      var ed := Utils.LevenshteinDistance(key, stripped);
      assert assoc[..i + 1][..i] == assoc[..i] && assoc[..i + 1][i] == item;
      if ed <= distance {
        fuzzyWords := fuzzyWords + [FuzzyWord(item.recordStart, item.recordEnd, item.keyText, item.keyBlockIdx, ed)];
      }
    }
    assert assoc[..|assoc|] == assoc;
  }
}
