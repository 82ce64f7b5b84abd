/**
 * Autocomplete for a station field: the stations of the directory whose
 * name contains what the operator typed, ignoring case, at most five of
 * them, in directory order.
 */
module StationMatcher {
  import opened Strings
  import opened Seqs

  const MaxSuggestions: nat := 5

  /** The filter test: the lower-cased name includes `searchTerm` and the station is not excluded. */
  predicate Kept(station: string, searchTerm: string, excluded: seq<string>)
  {
    Contains(ToLower(station), searchTerm) && station !in excluded
  }

  /** The directory entries whose lower-cased name includes `searchTerm` and that are not excluded. */
  function Eligible(directory: seq<string>, searchTerm: string, excluded: seq<string>): seq<string>
  {
    if directory == [] then []
    else
      var rest := Eligible(directory[1..], searchTerm, excluded);
      if Kept(directory[0], searchTerm, excluded) then [directory[0]] + rest
      else rest
  }

  /**
   * The suggestion list for `query`: nothing for an empty or blank query;
   * otherwise the first `MaxSuggestions` eligible stations. The search term
   * is the lower-cased query without trimming.
   */
  function Suggestions(directory: seq<string>, query: string, excluded: seq<string>): (r: seq<string>)
    ensures |r| <= MaxSuggestions
  {
    if Trim(query) == [] then []
    else
      var matches := Eligible(directory, ToLower(query), excluded);
      matches[..if |matches| < MaxSuggestions then |matches| else MaxSuggestions]
  }

  /** The exclusion list of the "to" field: `[fromStation].filter(Boolean)`. */
  function ExcludeChosen(fromStation: string): (r: seq<string>)
    ensures forall s :: s in r <==> s == fromStation && s != ""
  {
    if fromStation == "" then [] else [fromStation]
  }

  /** A station is eligible exactly when it is in the directory, matches and is not excluded; order is kept. */
  lemma {:induction false} EligibleExactly(directory: seq<string>, searchTerm: string, excluded: seq<string>)
    ensures IsSubsequence(Eligible(directory, searchTerm, excluded), directory)
    ensures forall s :: s in Eligible(directory, searchTerm, excluded) <==>
      s in directory && Contains(ToLower(s), searchTerm) && s !in excluded
  {
    if directory != [] {
      EligibleExactly(directory[1..], searchTerm, excluded);
      assert directory == [directory[0]] + directory[1..];
    }
  }

  /** Filtering a directory in two pieces gives the two filtered pieces in order. */
  lemma {:induction false} EligibleAppend(a: seq<string>, b: seq<string>, searchTerm: string, excluded: seq<string>)
    ensures Eligible(a + b, searchTerm, excluded) == Eligible(a, searchTerm, excluded) + Eligible(b, searchTerm, excluded)
  {
    if a == [] {
      assert a + b == b;
    } else {
      EligibleAppend(a[1..], b, searchTerm, excluded);
      assert (a + b)[0] == a[0] && (a + b)[1..] == a[1..] + b;
      var rest := Eligible(a[1..], searchTerm, excluded);
      var tail := Eligible(b, searchTerm, excluded);
      if Kept(a[0], searchTerm, excluded) {
        assert [a[0]] + (rest + tail) == [a[0]] + rest + tail;
      }
    }
  }

  /** A blank query (empty or only white space) gives no suggestions. */
  lemma BlankQueryNoSuggestions(directory: seq<string>, query: string, excluded: seq<string>)
    requires forall i :: 0 <= i < |query| ==> IsWhitespace(query[i])
    ensures Suggestions(directory, query, excluded) == []
  {
  }

  /**
   * Every suggestion is a directory station, in directory order, that is not
   * excluded and whose lower-cased name includes the lower-cased query.
   */
  lemma SuggestionsSound(directory: seq<string>, query: string, excluded: seq<string>)
    ensures var r := Suggestions(directory, query, excluded);
      && IsSubsequence(r, directory)
      && (forall s :: s in r ==> s in directory && s !in excluded && Contains(ToLower(s), ToLower(query)))
  {
    var matches := Eligible(directory, ToLower(query), excluded);
    if Trim(query) != [] {
      var k := Min(MaxSuggestions, |matches|);
      assert Suggestions(directory, query, excluded) == matches[..k];
      EligiblePrefix(directory, ToLower(query), excluded, k);
    }
  }

  /** Every prefix of the filtered list keeps directory order and holds only kept stations. */
  lemma EligiblePrefix(directory: seq<string>, searchTerm: string, excluded: seq<string>, k: nat)
    requires k <= |Eligible(directory, searchTerm, excluded)|
    ensures var r := Eligible(directory, searchTerm, excluded)[..k];
      && IsSubsequence(r, directory)
      && (forall s :: s in r ==> s in directory && s !in excluded && Contains(ToLower(s), searchTerm))
  {
    var matches := Eligible(directory, searchTerm, excluded);
    var r := matches[..k];
    EligibleExactly(directory, searchTerm, excluded);
    SubsequencePrefix(matches, directory, k);
    forall s | s in r ensures s in matches {
      var i :| 0 <= i < k && r[i] == s;
      assert matches[i] == s;
    }
  }

  function Min(a: nat, b: nat): nat { if a < b then a else b }

  /** A non-blank query shows as many stations as are eligible, up to `MaxSuggestions`. */
  lemma SuggestionsCount(directory: seq<string>, query: string, excluded: seq<string>)
    requires Trim(query) != []
    ensures |Suggestions(directory, query, excluded)| == Min(MaxSuggestions, |Eligible(directory, ToLower(query), excluded)|)
  {
  }

  /**
   * The suggestions are the first eligible stations in directory order: an
   * eligible station preceded in the directory by fewer than `MaxSuggestions`
   * eligible stations is shown, at the position that count gives it.
   */
  lemma SuggestionsComplete(directory: seq<string>, query: string, excluded: seq<string>, j: nat)
    requires Trim(query) != []
    requires j < |directory|
    requires Kept(directory[j], ToLower(query), excluded)
    requires |Eligible(directory[..j], ToLower(query), excluded)| < MaxSuggestions
    ensures var k := |Eligible(directory[..j], ToLower(query), excluded)|;
      && k < |Suggestions(directory, query, excluded)|
      && Suggestions(directory, query, excluded)[k] == directory[j]
  {
    var term := ToLower(query);
    EligibleAt(directory, term, excluded, j);
    var matches := Eligible(directory, term, excluded);
    assert Suggestions(directory, query, excluded)
        == matches[..if |matches| < MaxSuggestions then |matches| else MaxSuggestions];
  }

  /** A kept station sits in the filtered list after the kept stations before it. */
  lemma EligibleAt(directory: seq<string>, searchTerm: string, excluded: seq<string>, j: nat)
    requires j < |directory| && Kept(directory[j], searchTerm, excluded)
    ensures var k := |Eligible(directory[..j], searchTerm, excluded)|;
      k < |Eligible(directory, searchTerm, excluded)| && Eligible(directory, searchTerm, excluded)[k] == directory[j]
  {
    var before := directory[..j];
    var after := directory[j + 1..];
    assert directory == before + ([directory[j]] + after);
    EligibleAppend(before, [directory[j]] + after, searchTerm, excluded);
    assert ([directory[j]] + after)[1..] == after;
  }
}
