/**
  The counting core of `WordCountDemo.countWordsInFile`
  (Assignment-2/Program5.java). The file is replaced by the sequence of its
  lines; the sample-file helper, the printing and the IOException path are
  left out. Characters are ASCII: `\w` is `[a-zA-Z_0-9]`, as in Java's default
  regular-expression mode, and `toLowerCase` maps only 'A'..'Z'.
*/
module WordCount {

  // ---------------------------------------------------------------------
  // Characters and lower-casing
  // ---------------------------------------------------------------------

  /** A character `\w` matches. */
  predicate IsWordChar(c: char)
  {
    'a' <= c <= 'z' || 'A' <= c <= 'Z' || '0' <= c <= '9' || c == '_'
  }

  /** A word character with no upper-case letter: `[a-z0-9_]`. */
  predicate IsLowerWordChar(c: char)
  {
    'a' <= c <= 'z' || '0' <= c <= '9' || c == '_'
  }

  function LowerChar(c: char): char
  {
    if 'A' <= c <= 'Z' then (c as int - 'A' as int + 'a' as int) as char else c
  }

  /**
    `toLowerCase`: same length; 'A'..'Z' become 'a'..'z' and every other
    character is kept, so a position holds a word character exactly when it
    did, and then a lower-case one.
  */
  function ToLower(s: string): (r: string)
    ensures |r| == |s|
    ensures forall i :: 0 <= i < |s| && 'A' <= s[i] <= 'Z' ==> r[i] as int == s[i] as int + 32
    ensures forall i :: 0 <= i < |s| && !('A' <= s[i] <= 'Z') ==> r[i] == s[i]
    ensures forall i :: 0 <= i < |s| ==> (IsWordChar(r[i]) <==> IsWordChar(s[i]))
    ensures forall i :: 0 <= i < |s| && IsWordChar(r[i]) ==> IsLowerWordChar(r[i])
  {
    seq(|s|, i requires 0 <= i < |s| => LowerChar(s[i]))
  }

  // ---------------------------------------------------------------------
  // Scanning helpers
  // ---------------------------------------------------------------------

  /** `s` without its leading run of non-word characters. */
  function DropSeparators(s: string): (t: string)
    ensures |t| <= |s| && t == s[|s| - |t|..]
    ensures t == [] || IsWordChar(t[0])
  {
    if s == [] || IsWordChar(s[0]) then s else DropSeparators(s[1..])
  }

  /** The leading run of word characters of `s`, as long as it goes. */
  function TakeWord(s: string): (w: string)
    ensures |w| <= |s| && w == s[..|w|]
    ensures forall i :: 0 <= i < |w| ==> IsWordChar(w[i])
    ensures |w| < |s| ==> !IsWordChar(s[|w|])
    ensures s != [] && IsWordChar(s[0]) ==> |w| > 0
  {
    if s == [] || !IsWordChar(s[0]) then [] else [s[0]] + TakeWord(s[1..])
  }

  /**
    Reference tokeniser: the maximal runs of word characters of `s`, in
    order. Each starts at the beginning or after a non-word character and
    ends at the end or before one.
  */
  function WordRuns(s: string): seq<string>
    decreases |s|
  {
    var t := DropSeparators(s);
    if t == [] then []
    else
      var w := TakeWord(t);
      [w] + WordRuns(t[|w|..])
  }

  // ---------------------------------------------------------------------
  // String.split("\\W+")
  // ---------------------------------------------------------------------

  /** The pieces of `s` between runs of non-word characters, the first piece continuing `cur`. */
  function SplitFrom(s: string, cur: string): (r: seq<string>)
    ensures 1 <= |r| <= |s| + 1
    decreases |s|
  {
    if s == [] then [cur]
    else if IsWordChar(s[0]) then SplitFrom(s[1..], cur + [s[0]])
    else [cur] + SplitFrom(DropSeparators(s[1..]), [])
  }

  /** Java drops the empty strings at the end of a split result. */
  function DropTrailingEmpty(p: seq<string>): (r: seq<string>)
    ensures |r| <= |p| && r == p[..|r|]
    ensures forall k :: |r| <= k < |p| ==> p[k] == []
    ensures r == [] || r[|r| - 1] != []
    ensures forall w :: w in r ==> w in p
  {
    if p != [] && p[|p| - 1] == [] then DropTrailingEmpty(p[..|p| - 1]) else p
  }

  predicate HasSeparator(s: string)
  {
    exists i :: 0 <= i < |s| && !IsWordChar(s[i])
  }

  /**
    `s.split("\\W+")`: the string itself when no separator occurs; otherwise
    the pieces around each run of non-word characters (an empty first piece
    when `s` starts with one), without trailing empty pieces.
  */
  function JavaSplit(s: string): (r: seq<string>)
    ensures |r| <= |s| + 1
    ensures HasSeparator(s) ==> r == [] || r[|r| - 1] != []
  {
    if !HasSeparator(s) then [s] else DropTrailingEmpty(SplitFrom(s, []))
  }

  /** The pieces that pass `if (!word.isEmpty())`. */
  function NonEmpty(p: seq<string>): (r: seq<string>)
    ensures |r| <= |p|
    ensures forall w :: w in r ==> w != []
  {
    if p == [] then []
    else NonEmpty(p[..|p| - 1]) + (if p[|p| - 1] != [] then [p[|p| - 1]] else [])
  }

  /** The words counted for one line. */
  function LineWords(line: string): (r: seq<string>)
    ensures |r| <= |line| + 1
    ensures forall w :: w in r ==> w != []
  {
    NonEmpty(JavaSplit(ToLower(line)))
  }

  /** The words counted for all lines, in reading order. */
  function AllWords(lines: seq<string>): (r: seq<string>)
    ensures forall w :: w in r ==> w != []
  {
    if lines == [] then [] else AllWords(lines[..|lines| - 1]) + LineWords(lines[|lines| - 1])
  }

  // ---------------------------------------------------------------------
  // The split keeps exactly the maximal word runs
  // ---------------------------------------------------------------------

  lemma {:induction false} NonEmptyAppend(p: seq<string>, q: seq<string>)
    ensures NonEmpty(p + q) == NonEmpty(p) + NonEmpty(q)
  {
    if q != [] {
      assert (p + q)[..|p + q| - 1] == p + q[..|q| - 1];
      NonEmptyAppend(p, q[..|q| - 1]);
    } else {
      assert p + q == p;
    }
  }

  lemma {:induction false} NonEmptyDropTrailing(p: seq<string>)
    ensures NonEmpty(DropTrailingEmpty(p)) == NonEmpty(p)
  {
    if p != [] && p[|p| - 1] == [] {
      NonEmptyDropTrailing(p[..|p| - 1]);
    }
  }

  lemma {:induction false} SplitWithoutSeparator(s: string, cur: string)
    requires !HasSeparator(s)
    ensures SplitFrom(s, cur) == [cur + s]
    decreases |s|
  {
    if s != [] {
      assert IsWordChar(s[0]);
      assert !HasSeparator(s[1..]) by {
        forall i | 0 <= i < |s[1..]|
          ensures IsWordChar(s[1..][i])
        {
          assert s[1..][i] == s[i + 1];
        }
      }
      SplitWithoutSeparator(s[1..], cur + [s[0]]);
      assert SplitFrom(s, cur) == SplitFrom(s[1..], cur + [s[0]]);
      assert s == [s[0]] + s[1..];
      assert cur + [s[0]] + s[1..] == cur + s;
      assert [cur + [s[0]] + s[1..]] == [cur + s];
    } else {
      assert cur + s == cur;
    }
  }

  /** Splitting from `s` with piece `cur` begun keeps the finished piece and then the runs after it. */
  lemma {:induction false} SplitFromRuns(s: string, cur: string)
    ensures NonEmpty(SplitFrom(s, cur))
         == NonEmpty([cur + TakeWord(s)]) + WordRuns(s[|TakeWord(s)|..])
    decreases |s|
  {
    if s == [] {
      assert cur + [] == cur;
    } else if IsWordChar(s[0]) {
      SplitFromRuns(s[1..], cur + [s[0]]);
      assert cur + [s[0]] + TakeWord(s[1..]) == cur + TakeWord(s);
      assert s[1..][|TakeWord(s[1..])|..] == s[|TakeWord(s)|..];
    } else {
      var t := DropSeparators(s[1..]);
      assert TakeWord(s) == [] && cur + [] == cur;
      NonEmptyAppend([cur], SplitFrom(t, []));
      SplitFromRuns(t, []);
      assert [] + TakeWord(t) == TakeWord(t);
      if t != [] {
        assert NonEmpty([TakeWord(t)]) == [TakeWord(t)] by {
          assert [TakeWord(t)][..0] == [];
        }
      } else {
        var empty: seq<string> := [[]];
        assert NonEmpty(empty) == [] by {
          assert empty[..0] == [];
        }
      }
      assert WordRuns(s) == WordRuns(t);
    }
  }

  /** The non-empty pieces of `split("\\W+")` are exactly the maximal word runs, in order. */
  lemma SplitKeepsWordRuns(s: string)
    ensures NonEmpty(JavaSplit(s)) == WordRuns(s)
  {
    if !HasSeparator(s) {
      SplitWithoutSeparator(s, []);
      assert [] + s == s;
    } else {
      NonEmptyDropTrailing(SplitFrom(s, []));
    }
    assert NonEmpty(JavaSplit(s)) == NonEmpty(SplitFrom(s, []));
    SplitRunsFromStart(s);
  }

  lemma SplitRunsFromStart(s: string)
    ensures NonEmpty(SplitFrom(s, [])) == WordRuns(s)
  {
    SplitFromRuns(s, []);
    var w := TakeWord(s);
    assert [] + w == w;
    NonEmptySingle(w);
    if s != [] && IsWordChar(s[0]) {
      WordRunsAtWord(s);
    } else {
      assert s[|w|..] == s;
    }
  }

  /** Keeping the non-empty pieces of a single piece. */
  lemma NonEmptySingle(w: string)
    ensures NonEmpty([w]) == if w != [] then [w] else []
  {
    assert [w][..0] == [];
  }

  /** A string that starts with a word character: its first run is its leading word. */
  lemma WordRunsAtWord(s: string)
    requires s != [] && IsWordChar(s[0])
    ensures WordRuns(s) == [TakeWord(s)] + WordRuns(s[|TakeWord(s)|..])
  {
    assert DropSeparators(s) == s;
  }

  /** `v` is non-empty and made of word characters taken from `s`. */
  ghost predicate RunOf(v: string, s: string)
  {
    v != [] && forall i :: 0 <= i < |v| ==> IsWordChar(v[i]) && v[i] in s
  }

  /** Every run is non-empty and made of word characters taken from `s`. */
  lemma {:induction false} WordRunsShape(s: string)
    ensures forall v :: v in WordRuns(s) ==> RunOf(v, s)
    decreases |s|
  {
    var t := DropSeparators(s);
    if t == [] {
      assert WordRuns(s) == [];
    } else {
      var w := TakeWord(t);
      var rest := t[|w|..];
      WordRunsShape(rest);
      assert WordRuns(s) == [w] + WordRuns(rest);
      FirstRunOf(s, t);
      forall v | v in WordRuns(rest)
        ensures RunOf(v, s)
      {
        RunOfSuffix(v, s, |s| - |rest|);
      }
    }
  }

  /** The leading word after the separators is a run of `s`. */
  lemma FirstRunOf(s: string, t: string)
    requires t == DropSeparators(s) && t != []
    ensures RunOf(TakeWord(t), s)
  {
    var w := TakeWord(t);
    forall i | 0 <= i < |w|
      ensures w[i] in s
    {
      assert w[i] == s[|s| - |t| + i];
    }
  }

  /** A run of a suffix is a run of the whole. */
  lemma RunOfSuffix(v: string, s: string, k: nat)
    requires k <= |s| && RunOf(v, s[k..])
    ensures RunOf(v, s)
  {
    forall i | 0 <= i < |v|
      ensures v[i] in s
    {
      assert IsWordChar(v[i]) && v[i] in s[k..];
      var j :| 0 <= j < |s[k..]| && s[k..][j] == v[i];
      assert s[k + j] == v[i];
    }
  }

  // ---------------------------------------------------------------------
  // Counting
  // ---------------------------------------------------------------------

  /** `m` maps each word of `ws` to its number of occurrences, and nothing else. */
  ghost predicate Tallies(m: map<string, int>, ws: seq<string>)
  {
    && (forall w :: w in m <==> w in ws)
    && (forall w :: w in m ==> m[w] == multiset(ws)[w])
  }

  /**
    `wordMap.put(word, wordMap.getOrDefault(word, 0) + 1)`: the count of
    `word` goes up by one (from 0 when it was absent); every other entry
    stays as it was.
  */
  function Bump(m: map<string, int>, word: string): (r: map<string, int>)
    ensures word in r && r[word] == (if word in m then m[word] else 0) + 1
    ensures forall w :: w != word ==> (w in r <==> w in m)
    ensures forall w :: w != word && w in m ==> r[w] == m[w]
  {
    m[word := (if word in m then m[word] else 0) + 1]
  }

  /** Counting one more word keeps the map a tally of the words so far. */
  lemma TalliesBump(m: map<string, int>, ws: seq<string>, word: string)
    requires Tallies(m, ws)
    ensures Tallies(Bump(m, word), ws + [word])
  {
    var r, ws' := Bump(m, word), ws + [word];
    assert multiset(ws') == multiset(ws) + multiset{word};
    forall w
      ensures w in r <==> w in ws'
    {
      assert w in ws' <==> w in ws || w == word;
    }
  }

  /** The map built by counting the words of `ws` in order into an empty map. */
  function TallyOf(ws: seq<string>): (r: map<string, int>)
    ensures forall w :: w in r <==> w in ws
    ensures forall w :: w in r ==> r[w] >= 1
  {
    if ws == [] then map[] else Bump(TallyOf(ws[..|ws| - 1]), ws[|ws| - 1])
  }

  lemma {:induction false} TallyOfTallies(ws: seq<string>)
    ensures Tallies(TallyOf(ws), ws)
  {
    if ws != [] {
      var front := ws[..|ws| - 1];
      TallyOfTallies(front);
      TalliesBump(TallyOf(front), front, ws[|ws| - 1]);
      assert front + [ws[|ws| - 1]] == ws;
    }
  }

  /**
    The inner loop of `countWordsInFile`: every non-empty piece of one
    line is counted into the map, in order.
  */
  method CountPieces(wordMap: map<string, int>, ghost counted: seq<string>, words: seq<string>)
    returns (updated: map<string, int>)
    requires wordMap == TallyOf(counted)
    ensures updated == TallyOf(counted + NonEmpty(words))
  {
    updated := wordMap;
    assert words[..0] == [] && counted + [] == counted;
    for t := 0 to |words|
      invariant updated == TallyOf(counted + NonEmpty(words[..t]))
    {
      CountOneMore(counted, words, t);
      if words[t] != [] {
        updated := Bump(updated, words[t]);
      }
    }
    assert words[..|words|] == words;
  }

  /** One more piece: a non-empty one is bumped, an empty one leaves the tally. */
  lemma CountOneMore(counted: seq<string>, words: seq<string>, t: nat)
    requires t < |words|
    ensures TallyOf(counted + NonEmpty(words[..t + 1]))
         == if words[t] != [] then Bump(TallyOf(counted + NonEmpty(words[..t])), words[t])
            else TallyOf(counted + NonEmpty(words[..t]))
  {
    var word := words[t];
    assert words[..t + 1][..t] == words[..t];
    if word != [] {
      var sofar := counted + NonEmpty(words[..t]);
      assert (sofar + [word])[..|sofar|] == sofar;
      assert counted + NonEmpty(words[..t + 1]) == sofar + [word];
    } else {
      assert NonEmpty(words[..t + 1]) == NonEmpty(words[..t]);
    }
  }

  /**
    `countWordsInFile` over the lines of the file: each line is lower-cased
    and split on runs of non-word characters, and every non-empty piece is
    counted in the map.
  */
  method CountWords(lines: seq<string>) returns (wordMap: map<string, int>)
    ensures Tallies(wordMap, AllWords(lines))
  {
    wordMap := map[];
    for n := 0 to |lines|
      invariant wordMap == TallyOf(AllWords(lines[..n]))
    {
      assert lines[..n + 1][..n] == lines[..n];
      wordMap := CountPieces(wordMap, AllWords(lines[..n]), JavaSplit(ToLower(lines[n])));
    }
    assert lines[..|lines|] == lines;
    TallyOfTallies(AllWords(lines));
  }

  // ---------------------------------------------------------------------
  // What the map holds
  // ---------------------------------------------------------------------

  /** The words of all lines, read as maximal word runs of the lower-cased lines. */
  function AllRuns(lines: seq<string>): seq<string>
  {
    if lines == [] then [] else AllRuns(lines[..|lines| - 1]) + WordRuns(ToLower(lines[|lines| - 1]))
  }

  lemma {:induction false} AllWordsAreRuns(lines: seq<string>)
    ensures AllWords(lines) == AllRuns(lines)
  {
    if lines != [] {
      AllWordsAreRuns(lines[..|lines| - 1]);
      SplitKeepsWordRuns(ToLower(lines[|lines| - 1]));
    }
  }

  /**
    A word's count is the number of times it occurs as a maximal run of
    word characters in the lower-cased lines; words that never occur have
    no entry.
  */
  lemma CountIsOccurrences(m: map<string, int>, lines: seq<string>, w: string)
    requires Tallies(m, AllWords(lines))
    ensures w in m <==> multiset(AllRuns(lines))[w] > 0
    ensures w in m ==> m[w] == multiset(AllRuns(lines))[w]
  {
    AllWordsAreRuns(lines);
  }

  /** Keys are non-empty strings of `[a-z0-9_]`, and every count is at least 1. */
  lemma {:induction false} KeysAndCounts(m: map<string, int>, lines: seq<string>)
    requires Tallies(m, AllWords(lines))
    ensures forall w :: w in m ==> w != [] && m[w] >= 1
    ensures forall w, i :: w in m && 0 <= i < |w| ==> IsLowerWordChar(w[i])
  {
    AllWordsAreRuns(lines);
    forall w | w in m
      ensures w != [] && m[w] >= 1
      ensures forall i :: 0 <= i < |w| ==> IsLowerWordChar(w[i])
    {
      assert w in multiset(AllRuns(lines));
      RunsOfLinesShape(lines, w);
    }
  }

  lemma {:induction false} RunsOfLinesShape(lines: seq<string>, w: string)
    requires w in AllRuns(lines)
    ensures w != []
    ensures forall i :: 0 <= i < |w| ==> IsLowerWordChar(w[i])
  {
    if lines != [] {
      var last := ToLower(lines[|lines| - 1]);
      if w in AllRuns(lines[..|lines| - 1]) {
        RunsOfLinesShape(lines[..|lines| - 1], w);
      } else {
        WordRunsShape(last);
        assert RunOf(w, last);
        forall i | 0 <= i < |w|
          ensures IsLowerWordChar(w[i])
        {
          var k :| 0 <= k < |last| && last[k] == w[i];
        }
      }
    }
  }

  // ---------------------------------------------------------------------
  // The counts add up to the number of words
  // ---------------------------------------------------------------------

  /** The sum of `m[k]` over a listing `keys` of keys of `m`. */
  function SumOver(m: map<string, int>, keys: seq<string>): int
    requires forall k :: k in keys ==> k in m
  {
    if keys == [] then 0 else SumOver(m, keys[..|keys| - 1]) + m[keys[|keys| - 1]]
  }

  /** The occurrences in `ws` of the words listed in `keys`, added up. */
  function CountOver(ws: seq<string>, keys: seq<string>): int
  {
    if keys == [] then 0 else CountOver(ws, keys[..|keys| - 1]) + multiset(ws)[keys[|keys| - 1]]
  }

  lemma {:induction false} CountOverAppend(ws: seq<string>, w: string, keys: seq<string>)
    ensures CountOver(ws + [w], keys) == CountOver(ws, keys) + multiset(keys)[w]
  {
    if keys != [] {
      CountOverAppend(ws, w, keys[..|keys| - 1]);
      assert keys == keys[..|keys| - 1] + [keys[|keys| - 1]];
    }
  }

  lemma {:induction false} CountOverAll(ws: seq<string>, keys: seq<string>)
    requires forall w :: w in ws ==> multiset(keys)[w] == 1
    ensures CountOver(ws, keys) == |ws|
  {
    if ws == [] {
      CountOverNone(keys);
    } else {
      var front, w := ws[..|ws| - 1], ws[|ws| - 1];
      assert ws == front + [w];
      CountOverAll(front, keys);
      CountOverAppend(front, w, keys);
    }
  }

  lemma {:induction false} CountOverNone(keys: seq<string>)
    ensures CountOver([], keys) == 0
  {
    if keys != [] {
      CountOverNone(keys[..|keys| - 1]);
    }
  }

  lemma {:induction false} SumIsCount(m: map<string, int>, ws: seq<string>, keys: seq<string>)
    requires Tallies(m, ws)
    requires forall k :: k in keys ==> k in m
    ensures SumOver(m, keys) == CountOver(ws, keys)
  {
    if keys != [] {
      SumIsCount(m, ws, keys[..|keys| - 1]);
    }
  }

  /**
    Listing each key of the map once, the counts add up to the total number
    of non-empty pieces over all lines.
  */
  lemma CountsSumToWords(m: map<string, int>, lines: seq<string>, keys: seq<string>)
    requires Tallies(m, AllWords(lines))
    requires forall k :: k in m ==> multiset(keys)[k] == 1
    requires forall k :: k in keys ==> k in m
    ensures SumOver(m, keys) == |AllWords(lines)|
  {
    SumIsCount(m, AllWords(lines), keys);
    CountOverAll(AllWords(lines), keys);
  }
}
