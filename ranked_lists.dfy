/** What the two ranked lists of `generate_statistics` hold
    (scripts/analyzer.py:237-246, 283-287): `missingCombinations` is the
    ten largest `(punct, word, count)` triples of `combinationsMissing`, and
    `unnecessaryCombinations` keeps, for every following word among the
    five largest `"<char> + <word>"` counts, the character of the last
    such entry. */
module RankedLists {
  import opened Wrappers
  import opened PyStr
  import opened Dict
  import opened Fold
  import opened Ranking
  import opened Derivation

  // ---------------------------------------------------------------- unnecessaryCombinations

  /** The character stored for `word` by a loop over `entries`: that of the
      last entry whose key splits into a character and `word`. */
  function LastCharFor(entries: seq<(string, real)>, word: string): Option<string> {
    if entries == [] then None
    else
      var parts := Split(entries[|entries| - 1].0, " + ");
      if |parts| >= 2 && parts[1] == word then Some(parts[0])
      else LastCharFor(entries[..|entries| - 1], word)
  }

  /** The loop over the ranked combinations stores, for every word, the
      character of the last entry naming it, and nothing for other words. */
  lemma {:induction false} CombinationsLastWins(entries: seq<(string, real)>, word: string)
    requires FoldResult(CombinationStep, [], entries).Ok?
    ensures Get(FoldResult(CombinationStep, [], entries).value, word) == LastCharFor(entries, word)
  {
    if entries != [] {
      var prefix := entries[..|entries| - 1];
      var e := entries[|entries| - 1];
      var before := FoldResult(CombinationStep, [], prefix);
      assert before.Ok?;
      CombinationsLastWins(prefix, word);
      var parts := Split(e.0, " + ");
      assert |parts| >= 2;
      PutGet(before.value, parts[1], parts[0], word);
    }
  }

  /** `unnecessaryCombinations[word]` is the character of the last of the
      five largest combinations whose following word is `word`. */
  lemma UnnecessaryCombinationsLastWins(d: Dict<string, real>, word: string)
    requires UnnecessaryCombinations(d).Ok?
    ensures Get(UnnecessaryCombinations(d).value, word) == LastCharFor(Take(ByCount(d), 5), word)
  {
    CombinationsLastWins(Take(ByCount(d), 5), word);
  }

  // ---------------------------------------------------------------- missingCombinations

  /** A triple is flattened exactly when its word has a counter that holds
      its mark with its count. */
  lemma {:induction false} FlattenInnerMember(word: string, counts: Dict<string, real>, x: (string, string, real))
    ensures x in FlattenInner(word, counts) <==> x.1 == word && (x.0, x.2) in counts
  {
    if counts != [] {
      var prefix := counts[..|counts| - 1];
      FlattenInnerMember(word, prefix, x);
      assert counts == prefix + [counts[|counts| - 1]];
    }
  }

  /** `(punct, word, count)` is flattened exactly when
      `combinationsMissing[word][punct] == count` for some listed entry. */
  lemma {:induction false} FlattenMember(m: Dict<string, Dict<string, real>>, x: (string, string, real))
    ensures x in Flatten(m) <==> exists i :: 0 <= i < |m| && m[i].0 == x.1 && (x.0, x.2) in m[i].1
  {
    if m != [] {
      var prefix := m[..|m| - 1];
      var last := m[|m| - 1];
      FlattenMember(prefix, x);
      FlattenInnerMember(last.0, last.1, x);
      if x in Flatten(m) {
        if x in Flatten(prefix) {
          var i :| 0 <= i < |prefix| && prefix[i].0 == x.1 && (x.0, x.2) in prefix[i].1;
          assert m[i] == prefix[i];
        } else {
          assert m[|m| - 1] == last;
        }
      }
      if exists i :: 0 <= i < |m| && m[i].0 == x.1 && (x.0, x.2) in m[i].1 {
        var i :| 0 <= i < |m| && m[i].0 == x.1 && (x.0, x.2) in m[i].1;
        if i < |m| - 1 {
          assert prefix[i] == m[i];
        }
      }
    }
  }

  /** Everything past the first `n` items of a list sorted by descending
      count has a count no larger than any of the first `n`, and together
      they are the whole list. */
  lemma {:induction false} TakeSorted<T>(s: seq<T>, key: T -> real, n: nat, x: T)
    requires SortedDesc(s, key)
    requires x in multiset(s) - multiset(Take(s, n))
    ensures forall i :: 0 <= i < |Take(s, n)| ==> key(x) <= key(Take(s, n)[i])
  {
    var r := Take(s, n);
    assert r == s[..|r|];
    assert s == r + s[|r|..];
    assert multiset(s) == multiset(r) + multiset(s[|r|..]);
    assert x in multiset(s[|r|..]);
    var j :| 0 <= j < |s[|r|..]| && s[|r|..][j] == x;
    assert s[|r| + j] == x;
  }

  /** The first `n` items of a ranking: as many as there are up to `n`,
      largest first, each from the list, and every item left out has a key
      no larger than any kept one. */
  lemma {:induction false} TopOfRanking<T>(xs: seq<T>, key: T -> real, n: nat)
    ensures var r := Take(SortDesc(xs, key), n);
      && |r| == (if |xs| < n then |xs| else n)
      && SortedDesc(r, key)
      && (forall i :: 0 <= i < |r| ==> r[i] in xs)
      && (forall x :: x in multiset(xs) - multiset(r) ==> forall i :: 0 <= i < |r| ==> key(x) <= key(r[i]))
  {
    var s := SortDesc(xs, key);
    var r := Take(s, n);
    assert r == s[..|r|];
    forall i | 0 <= i < |r|
      ensures r[i] in xs
    {
      assert r[i] == s[i];
      assert s[i] in multiset(s);
    }
    forall x | x in multiset(xs) - multiset(r)
      ensures forall i :: 0 <= i < |r| ==> key(x) <= key(r[i])
    {
      TakeSorted(s, key, n, x);
    }
  }

  /** `missingCombinations` holds at most ten triples, each one a count of
      `combinationsMissing`, largest first, and every triple left out has a
      count no larger than any kept one. */
  lemma MissingCombinationsTop(m: Dict<string, Dict<string, real>>)
    ensures var r := MissingCombinations(m);
      && |r| == (if |Flatten(m)| < 10 then |Flatten(m)| else 10)
      && SortedDesc(r, CountOfTriple)
      && (forall i :: 0 <= i < |r| ==> r[i] in Flatten(m))
      && (forall x :: x in multiset(Flatten(m)) - multiset(r) ==>
            forall i :: 0 <= i < |r| ==> CountOfTriple(x) <= CountOfTriple(r[i]))
  {
    TopOfRanking(Flatten(m), CountOfTriple, 10);
  }
}
