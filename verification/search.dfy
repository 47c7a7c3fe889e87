/** Text handling of the search engine: splitting text into words, the word queries a
    search fans out into, and the word items that index an object. The word
    middlewares (stop words, stemming, metaphone) are not part of this model: the
    searched and indexed words are given. */
module Search {
  import opened Wrappers

  /** The default `min_word_length`. */
  const DEFAULT_MIN_WORD_LENGTH: nat := 3

  /** The engine's splitting configuration: the minimum word length and the
      characters of `punctuation_regex`, `None` when there is none. */
  datatype Engine = Engine(minWordLength: int, punctuation: Option<string>)

  /** `SearchEngine.__init__`: the splitters are the given string, or the default
      punctuation characters when none is given; an empty string means no
      punctuation replacement at all. */
  function Init(minWordLength: int, splitters: Option<string>, punctuationChars: string): (e: Engine)
    ensures e.minWordLength == minWordLength
    ensures e.punctuation.None? <==> (if splitters.Some? then splitters.value else punctuationChars) == ""
    ensures e.punctuation.Some? ==>
              e.punctuation.value == if splitters.Some? then splitters.value else punctuationChars
  {
    var chars := if splitters.Some? then splitters.value else punctuationChars;
    if chars != "" then Engine(minWordLength, Some(chars)) else Engine(minWordLength, None)
  }

  /** The characters Python's `str.split()` splits on (`str.isspace`). */
  predicate IsSpace(c: char) {
    c == ' ' || '\t' <= c <= '\r' || '\U{1c}' <= c <= '\U{1f}' || c == '\U{85}' || c == '\U{a0}' ||
    c == '\U{1680}' || '\U{2000}' <= c <= '\U{200a}' || c == '\U{2028}' || c == '\U{2029}' ||
    c == '\U{202f}' || c == '\U{205f}' || c == '\U{3000}'
  }

  /** `punctuation_regex.sub(" ", text)`: every splitter character becomes a space. */
  function Replace(text: string, splitters: string): (r: string)
    ensures |r| == |text|
    ensures forall i :: 0 <= i < |text| ==> r[i] == if text[i] in splitters then ' ' else text[i]
  {
    if text == [] then []
    else [if text[0] in splitters then ' ' else text[0]] + Replace(text[1..], splitters)
  }

  /** The end of the run of non-space characters starting at `i`. */
  function WordEnd(s: string, i: nat): (n: nat)
    requires i <= |s|
    ensures i <= n <= |s| && (n < |s| ==> IsSpace(s[n]))
    ensures forall k :: i <= k < n ==> !IsSpace(s[k])
    decreases |s| - i
  {
    if i == |s| || IsSpace(s[i]) then i else WordEnd(s, i + 1)
  }

  /** `s.split()`: the maximal runs of non-space characters, in order. */
  function Words(s: string): (ws: seq<string>)
    ensures forall i :: 0 <= i < |ws| ==> ws[i] != "" && forall k :: 0 <= k < |ws[i]| ==> !IsSpace(ws[i][k])
    decreases |s|
  {
    if s == [] then []
    else if IsSpace(s[0]) then Words(s[1..])
    else
      var n := WordEnd(s, 0);
      [s[..n]] + Words(s[n..])
  }

  /** `c.lower()` on ASCII letters. */
  function LowerChar(c: char): (d: char)
    ensures !('A' <= d <= 'Z')
    ensures IsSpace(d) <==> IsSpace(c)
  {
    if 'A' <= c <= 'Z' then (c as int + 32) as char else c
  }

  function Lower(w: string): (r: string)
    ensures |r| == |w| && forall k :: 0 <= k < |w| ==> r[k] == LowerChar(w[k])
  {
    if w == [] then [] else [LowerChar(w[0])] + Lower(w[1..])
  }

  /** `w` is one of `ws`, lowercased. */
  predicate LoweredFrom(w: string, ws: seq<string>) {
    exists j :: 0 <= j < |ws| && w == Lower(ws[j])
  }

  /** The words of at least `mwl` characters, lowercased, in order. */
  function KeepLong(ws: seq<string>, mwl: int): (r: seq<string>)
    ensures |r| <= |ws|
    ensures forall i :: 0 <= i < |r| ==> |r[i]| >= mwl && LoweredFrom(r[i], ws)
  {
    if ws == [] then []
    else (if |ws[0]| >= mwl then [Lower(ws[0])] else []) + KeepLong(ws[1..], mwl)
  }

  /** `split_text`: punctuation replaced by spaces, split on whitespace, words shorter
      than the minimum dropped and the rest lowercased. */
  function SplitText(e: Engine, text: string): (ws: seq<string>)
    ensures forall i :: 0 <= i < |ws| ==> |ws[i]| >= e.minWordLength
    ensures forall i :: 0 <= i < |ws| ==> forall k :: 0 <= k < |ws[i]| ==>
              !IsSpace(ws[i][k]) && !('A' <= ws[i][k] <= 'Z')
  {
    var replaced := if e.punctuation.Some? then Replace(text, e.punctuation.value) else text;
    KeepLong(Words(replaced), e.minWordLength)
  }

  // ---------------------------------------------------------------------------------

  /** A single space between two texts separates their words: words come out in
      their order of appearance. */
  lemma {:induction false} WordsConcat(a: string, b: string)
    ensures Words(a + [' '] + b) == Words(a) + Words(b)
    decreases |a|
  {
    var s := a + [' '] + b;
    if a == [] {
      assert s[1..] == b;
    } else if IsSpace(a[0]) {
      assert s[1..] == a[1..] + [' '] + b;
      WordsConcat(a[1..], b);
    } else {
      var n := WordEnd(a, 0);
      WordEndConcat(a, b, 0);
      assert s[0] == a[0] && n > 0;
      assert s[..n] == a[..n];
      assert s[n..] == a[n..] + [' '] + b;
      WordsConcat(a[n..], b);
      calc {
        Words(s);
        [s[..n]] + Words(s[n..]);
        [a[..n]] + (Words(a[n..]) + Words(b));
        ([a[..n]] + Words(a[n..])) + Words(b);
      }
    }
  }

  lemma {:induction false} WordEndConcat(a: string, b: string, i: nat)
    requires i <= |a|
    ensures WordEnd(a + [' '] + b, i) == WordEnd(a, i)
    decreases |a| - i
  {
    var s := a + [' '] + b;
    if i < |a| {
      assert s[i] == a[i];
      if !IsSpace(a[i]) {
        WordEndConcat(a, b, i + 1);
      }
    } else {
      assert s[i] == ' ';
    }
  }

  lemma {:induction false} KeepLongConcat(a: seq<string>, b: seq<string>, mwl: int)
    ensures KeepLong(a + b, mwl) == KeepLong(a, mwl) + KeepLong(b, mwl)
  {
    if a != [] {
      assert (a + b)[0] == a[0] && (a + b)[1..] == a[1..] + b;
      KeepLongConcat(a[1..], b, mwl);
      var head := if |a[0]| >= mwl then [Lower(a[0])] else [];
      KeepLongCons(a + b, mwl);
      KeepLongCons(a, mwl);
      assert head + (KeepLong(a[1..], mwl) + KeepLong(b, mwl)) == (head + KeepLong(a[1..], mwl)) + KeepLong(b, mwl);
    } else {
      assert a + b == b;
    }
  }

  lemma KeepLongCons(ws: seq<string>, mwl: int)
    requires ws != []
    ensures KeepLong(ws, mwl) == (if |ws[0]| >= mwl then [Lower(ws[0])] else []) + KeepLong(ws[1..], mwl)
  {
  }

  lemma {:induction false} ReplaceConcat(a: string, b: string, splitters: string)
    ensures Replace(a + [' '] + b, splitters) == Replace(a, splitters) + [' '] + Replace(b, splitters)
  {
    var l := Replace(a + [' '] + b, splitters);
    var r := Replace(a, splitters) + [' '] + Replace(b, splitters);
    assert |l| == |r|;
    forall i | 0 <= i < |l| ensures l[i] == r[i] {
      if i < |a| {
      } else if i == |a| {
      } else {
        assert (a + [' '] + b)[i] == b[i - |a| - 1];
      }
    }
  }

  /** The words of two texts joined by a space are the words of the first, then those
      of the second. */
  lemma SplitTextConcat(e: Engine, a: string, b: string)
    ensures SplitText(e, a + [' '] + b) == SplitText(e, a) + SplitText(e, b)
  {
    if e.punctuation.Some? {
      ReplaceConcat(a, b, e.punctuation.value);
      WordsConcat(Replace(a, e.punctuation.value), Replace(b, e.punctuation.value));
      KeepLongConcat(Words(Replace(a, e.punctuation.value)), Words(Replace(b, e.punctuation.value)), e.minWordLength);
    } else {
      WordsConcat(a, b);
      KeepLongConcat(Words(a), Words(b), e.minWordLength);
    }
  }

  /** A run of non-space, non-splitter characters is one word, kept lowercased when
      long enough and dropped otherwise. */
  lemma SplitTextWord(e: Engine, w: string)
    requires w != []
    requires forall k :: 0 <= k < |w| ==> !IsSpace(w[k])
    requires e.punctuation.Some? ==> forall k :: 0 <= k < |w| ==> w[k] !in e.punctuation.value
    ensures SplitText(e, w) == if |w| >= e.minWordLength then [Lower(w)] else []
  {
    if e.punctuation.Some? {
      assert Replace(w, e.punctuation.value) == w;
    }
    WordsSingle(w);
  }

  lemma WordsSingle(w: string)
    requires w != []
    requires forall k :: 0 <= k < |w| ==> !IsSpace(w[k])
    ensures Words(w) == [w]
  {
    WordEndAll(w, 0);
    assert w[..|w|] == w && w[|w|..] == [];
  }

  lemma {:induction false} WordEndAll(w: string, i: nat)
    requires i <= |w|
    requires forall k :: 0 <= k < |w| ==> !IsSpace(w[k])
    ensures WordEnd(w, i) == |w|
    decreases |w| - i
  {
    if i < |w| {
      WordEndAll(w, i + 1);
    }
  }

  /** With no splitters configured, text splits on whitespace only: a splitter-free
      engine leaves punctuation inside the words. */
  lemma NoSplitters(minWordLength: int, text: string)
    ensures SplitText(Init(minWordLength, Some(""), ""), text) == KeepLong(Words(text), minWordLength)
  {
  }

  /** A word never holds a splitter character unless lowercasing made it one. */
  lemma {:induction false} SplitTextNoSplitter(e: Engine, text: string)
    requires e.punctuation.Some?
    requires forall c :: c in e.punctuation.value ==> !('a' <= c <= 'z')
    ensures forall i :: 0 <= i < |SplitText(e, text)| ==> forall k :: 0 <= k < |SplitText(e, text)[i]| ==>
              SplitText(e, text)[i][k] !in e.punctuation.value
  {
    var p := e.punctuation.value;
    var ws := SplitText(e, text);
    forall i, k | 0 <= i < |ws| && 0 <= k < |ws[i]| ensures ws[i][k] !in p {
      var words := Words(Replace(text, p));
      var j :| 0 <= j < |words| && ws[i] == Lower(words[j]);
      WordsOfReplaced(text, p, j);
      var c := words[j][k];
      assert ws[i][k] == LowerChar(c);
      assert c !in p;
    }
  }

  /** The words of a replaced text hold no splitter character. */
  lemma WordsOfReplaced(text: string, p: string, j: nat)
    requires j < |Words(Replace(text, p))|
    ensures forall k :: 0 <= k < |Words(Replace(text, p))[j]| ==> Words(Replace(text, p))[j][k] !in p
  {
    NoSplitterWords(Replace(text, p), p, j);
  }

  lemma {:induction false} NoSplitterWords(s: string, p: string, j: nat)
    requires forall k :: 0 <= k < |s| ==> s[k] !in p || s[k] == ' '
    requires j < |Words(s)|
    ensures forall k :: 0 <= k < |Words(s)[j]| ==> Words(s)[j][k] !in p
    decreases |s|
  {
    if IsSpace(s[0]) {
      NoSplitterWords(s[1..], p, j);
    } else {
      var n := WordEnd(s, 0);
      if j > 0 {
        NoSplitterWords(s[n..], p, j - 1);
      } else {
        forall k | 0 <= k < n ensures s[k] !in p {
          assert !IsSpace(s[k]);
        }
      }
    }
  }

  // ---------------------------------------------------------------------------------
  // Word queries

  /** A filter of a query over word items. */
  datatype Filter =
    | TypeIn(types: seq<string>)
    | TypeNotIn(excludedTypes: Option<seq<string>>)
    | WordIs(word: string)
    | WordAmong(words: seq<string>)

  /** A query over the word items: the conjunction of its filters. */
  datatype WordQuery = WordQuery(filters: seq<Filter>)

  datatype WordItem = WordItem(word: string, modelType: string, objectId: string)

  predicate MatchesFilter(wi: WordItem, f: Filter) {
    match f
    case TypeIn(types) => wi.modelType in types
    case TypeNotIn(excludedTypes) => excludedTypes.None? || wi.modelType !in excludedTypes.value
    case WordIs(word) => wi.word == word
    case WordAmong(words) => wi.word in words
  }

  predicate Matches(wi: WordItem, q: WordQuery) {
    forall i :: 0 <= i < |q.filters| ==> MatchesFilter(wi, q.filters[i])
  }

  function Refine(q: WordQuery, f: Filter): (r: WordQuery)
    ensures forall wi :: Matches(wi, r) <==> Matches(wi, q) && MatchesFilter(wi, f)
  {
    var r := WordQuery(q.filters + [f]);
    forall wi ensures Matches(wi, r) <==> Matches(wi, q) && MatchesFilter(wi, f) {
      if Matches(wi, r) {
        assert MatchesFilter(wi, r.filters[|q.filters|]);
        forall i | 0 <= i < |q.filters| ensures MatchesFilter(wi, q.filters[i]) {
          assert r.filters[i] == q.filters[i];
        }
      }
      if Matches(wi, q) && MatchesFilter(wi, f) {
        forall i | 0 <= i < |r.filters| ensures MatchesFilter(wi, r.filters[i]) {
          if i < |q.filters| { assert r.filters[i] == q.filters[i]; }
        }
      }
    }
    r
  }

  /** A sequence argument, `None` or empty standing for a falsy one. */
  predicate Truthy(xs: Option<seq<string>>) {
    xs.Some? && xs.value != []
  }

  /** The base query of `_search`: filtered to the included model types when some
      are given, and, when some types are to be excluded, it excludes the INCLUDED
      types rather than the excluded ones. */
  function SearchBase(included: Option<seq<string>>, excluded: Option<seq<string>>): (q: WordQuery)
    ensures forall wi :: Matches(wi, q) <==>
              (Truthy(included) ==> wi.modelType in included.value) &&
              (Truthy(excluded) ==> included.None? || wi.modelType !in included.value)
  {
    var q0 := WordQuery([]);
    var q1 := if Truthy(included) then Refine(q0, TypeIn(included.value)) else q0;
    if Truthy(excluded) then Refine(q1, TypeNotIn(included)) else q1
  }

  /** `_search`: the word queries to intersect. The lookup defaults to `contains` (one
      query per word); `in` gives one query for any of the words; any other lookup
      is a `ValueError`, except that with no words the base query alone comes back. */
  function SearchQueries(words: seq<string>, included: Option<seq<string>>, excluded: Option<seq<string>>,
                         lookup: Option<string>): (r: Result<seq<WordQuery>, string>)
    ensures words == [] ==> r == Ok([SearchBase(included, excluded)])
    ensures words != [] && r.Ok? ==> lookup.None? || lookup.value in {"", "contains", "in"}
    ensures words != [] && (lookup.None? || lookup.value in {"", "contains"}) ==>
              r.Ok? && |r.value| == |words| &&
              forall i, wi :: 0 <= i < |words| ==>
                (Matches(wi, r.value[i]) <==> Matches(wi, SearchBase(included, excluded)) && wi.word == words[i])
    ensures words != [] && lookup == Some("in") ==>
              r.Ok? && |r.value| == 1 &&
              forall wi :: Matches(wi, r.value[0]) <==> Matches(wi, SearchBase(included, excluded)) && wi.word in words
  {
    var lk := if lookup.Some? && lookup.value != "" then lookup.value else "contains";
    var base := SearchBase(included, excluded);
    if words == [] then Ok([base])
    else if lk == "in" then Ok([Refine(base, WordAmong(words))])
    else if lk == "contains" then Ok(PerWord(base, words))
    else Err("Unknown lookup \"" + lk + "\"")
  }

  /** One query per word, in order. */
  function PerWord(base: WordQuery, words: seq<string>): (r: seq<WordQuery>)
    ensures |r| == |words|
    ensures forall i, wi :: 0 <= i < |words| ==> (Matches(wi, r[i]) <==> Matches(wi, base) && wi.word == words[i])
  {
    if words == [] then [] else [Refine(base, WordIs(words[0]))] + PerWord(base, words[1..])
  }

  /** Once any type is excluded, which types are excluded makes no difference. */
  lemma ExcludeIgnored(words: seq<string>, included: Option<seq<string>>, excluded: Option<seq<string>>,
                       excluded': Option<seq<string>>, lookup: Option<string>)
    requires Truthy(excluded) && Truthy(excluded')
    ensures SearchQueries(words, included, excluded, lookup) == SearchQueries(words, included, excluded', lookup)
  {
  }

  /** A query over model instances, as far as `search_model` builds it: the input
      query, or its intersection with the object ids of word queries. */
  datatype ModelQuery =
    | Given(name: string)
    | Intersect(first: ModelQuery, objectIds: seq<WordQuery>)

  /** `search_model(q, text, lookup)` for the words of `text`: the query itself when
      there are none, and otherwise `q` intersected with the object ids of the word
      queries restricted to `q`'s model. */
  function SearchModel(q: ModelQuery, model: string, words: seq<string>, lookup: Option<string>)
    : (r: Result<ModelQuery, string>)
    ensures words == [] ==> r == Ok(q)
    ensures words != [] && r.Ok? ==>
              r.value.Intersect? && r.value.first == q &&
              SearchQueries(words, Some([model]), None, lookup).Ok? &&
              r.value.objectIds == SearchQueries(words, Some([model]), None, lookup).value
    ensures r.Err? <==> SearchQueries(words, Some([model]), None, lookup).Err?
  {
    if words == [] then Ok(q)
    else
      match SearchQueries(words, Some([model]), None, lookup)
      case Err(e) => Err(e)
      case Ok(qs) => Ok(Intersect(q, qs))
  }

  /** `add_item`: one word item per word, in order, each carrying the item's model
      type and id, added to the transaction's pending items. */
  function AddItem(pending: seq<WordItem>, modelType: string, id: string, words: seq<string>): (r: seq<WordItem>)
    ensures |r| == |pending| + |words| && pending <= r
    ensures forall i :: 0 <= i < |words| ==> r[|pending| + i] == WordItem(words[i], modelType, id)
    decreases |words|
  {
    if words == [] then pending
    else AddItem(pending + [WordItem(words[0], modelType, id)], modelType, id, words[1..])
  }

  /** Adding two runs of words adds them as one run. */
  lemma AddItemConcat(pending: seq<WordItem>, modelType: string, id: string, a: seq<string>, b: seq<string>)
    ensures AddItem(AddItem(pending, modelType, id, a), modelType, id, b) == AddItem(pending, modelType, id, a + b)
  {
    var l := AddItem(AddItem(pending, modelType, id, a), modelType, id, b);
    var r := AddItem(pending, modelType, id, a + b);
    assert |l| == |r|;
    forall i | 0 <= i < |l| ensures l[i] == r[i] {
      if i >= |pending| + |a| {
        assert (a + b)[i - |pending|] == b[i - |pending| - |a|];
      } else if i >= |pending| {
        assert (a + b)[i - |pending|] == a[i - |pending|];
      }
    }
  }
}
