/** Word statistics of a text: the text is lower-cased and stripped of every
    character that is neither a word character nor white space, split on runs
    of white space, and then counted. */
module TextAnalysis {

  /** The result of an analysis. The average word length of the source is a
      floating-point quotient; the model keeps its two integer parts,
      `wordCount` and `totalLength`. */
  datatype Analysis = Analysis(
    wordCount: nat,
    totalLength: nat,
    longestWords: seq<string>,
    wordFrequency: map<string, nat>)

  // ---------------------------------------------------------------------------
  // Characters
  // ---------------------------------------------------------------------------

  /** The regular-expression class `\w` (no `u` flag): ASCII letters, digits
      and the underscore. */
  predicate IsWordChar(c: char) {
    ('a' <= c <= 'z') || ('A' <= c <= 'Z') || ('0' <= c <= '9') || c == '_'
  }

  predicate IsLowerWordChar(c: char) {
    ('a' <= c <= 'z') || ('0' <= c <= '9') || c == '_'
  }

  /** The regular-expression class `\s`: the ECMAScript white-space and
      line-terminator code points. */
  predicate IsSpace(c: char) {
    var n := c as int;
    n == 0x09 || n == 0x0A || n == 0x0B || n == 0x0C || n == 0x0D || n == 0x20
    || n == 0xA0 || n == 0x1680 || (0x2000 <= n <= 0x200A) || n == 0x2028
    || n == 0x2029 || n == 0x202F || n == 0x205F || n == 0x3000 || n == 0xFEFF
  }

  /** Lower-casing, restricted to the ASCII letters: `A`-`Z` become the
      letter at the same place in `a`-`z`, everything else is left alone. */
  function ToLower(c: char): (r: char)
    ensures 'A' <= c <= 'Z' ==> 'a' <= r <= 'z' && r as int - 'a' as int == c as int - 'A' as int
    ensures !('A' <= c <= 'Z') ==> r == c
    ensures IsWordChar(c) ==> IsLowerWordChar(r)
  {
    if 'A' <= c <= 'Z' then (c as int + 32) as char else c
  }

  // ---------------------------------------------------------------------------
  // Normalisation
  // ---------------------------------------------------------------------------

  predicate IsCleanChar(c: char) {
    IsLowerWordChar(c) || IsSpace(c)
  }

  /** Lower-cases `text` and removes every character that is neither a word
      character nor white space. */
  function Clean(text: string): (r: string)
    ensures |r| <= |text|
    ensures forall i :: 0 <= i < |r| ==> IsCleanChar(r[i])
  {
    if text == [] then []
    else
      var c := ToLower(text[0]);
      (if IsWordChar(c) || IsSpace(c) then [c] else []) + Clean(text[1..])
  }

  /** Clean text is left as it is, so cleaning twice is cleaning once. */
  lemma {:induction false} CleanFixesCleanText(text: string)
    requires forall i :: 0 <= i < |text| ==> IsCleanChar(text[i])
    ensures Clean(text) == text
  {
    if text != [] {
      assert IsCleanChar(text[0]);
      CleanFixesCleanText(text[1..]);
      assert text == [text[0]] + text[1..];
    }
  }

  lemma CleanIsIdempotent(text: string)
    ensures Clean(Clean(text)) == Clean(text)
  {
    CleanFixesCleanText(Clean(text));
  }

  /** Cleaning works character by character: a word or white-space character
      is kept, lower-cased, and every other character is dropped. */
  lemma CleanOneChar(c: char)
    ensures Clean([c]) == if IsWordChar(c) || IsSpace(c) then [ToLower(c)] else []
  {
  }

  /** Cleaning a concatenation is concatenating the cleaned parts. */
  lemma {:induction false} CleanAppend(a: string, b: string)
    ensures Clean(a + b) == Clean(a) + Clean(b)
  {
    if a == [] {
      assert a + b == b;
    } else {
      assert (a + b)[0] == a[0];
      assert (a + b)[1..] == a[1..] + b;
      CleanAppend(a[1..], b);
    }
  }

  /** Two texts that agree up to the case of ASCII letters. */
  predicate SameUpToCase(a: string, b: string) {
    |a| == |b| && forall i :: 0 <= i < |a| ==> ToLower(a[i]) == ToLower(b[i])
  }

  /** The analysis is case-insensitive: texts that differ only in the case of
      their letters clean to the same text, and so have the same words. */
  lemma {:induction false} CleanIgnoresCase(a: string, b: string)
    requires SameUpToCase(a, b)
    ensures Clean(a) == Clean(b)
    ensures Words(Clean(a)) == Words(Clean(b))
  {
    if a != [] {
      assert ToLower(a[0]) == ToLower(b[0]);
      assert SameUpToCase(a[1..], b[1..]) by {
        forall i | 0 <= i < |a[1..]| ensures ToLower(a[1..][i]) == ToLower(b[1..][i]) {
          assert a[1..][i] == a[i + 1] && b[1..][i] == b[i + 1];
        }
      }
      CleanIgnoresCase(a[1..], b[1..]);
    }
  }

  // ---------------------------------------------------------------------------
  // Splitting
  // ---------------------------------------------------------------------------

  predicate NoSpace(w: string) {
    forall i :: 0 <= i < |w| ==> !IsSpace(w[i])
  }

  /** A word: non-empty and free of white space. */
  predicate IsWord(w: string) {
    w != [] && NoSpace(w)
  }

  /** Splits `s` on runs of white space, dropping empty pieces; `cur` is the
      part of the current word already read. */
  function Split(s: string, cur: string): (ws: seq<string>)
    requires NoSpace(cur)
    ensures forall i :: 0 <= i < |ws| ==> IsWord(ws[i])
    decreases |s|
  {
    if s == [] then
      (if cur == [] then [] else [cur])
    else if IsSpace(s[0]) then
      (if cur == [] then [] else [cur]) + Split(s[1..], [])
    else
      Split(s[1..], cur + [s[0]])
  }

  /** The words of `s`: its maximal runs of non-white-space characters. */
  function Words(s: string): (ws: seq<string>)
    ensures forall i :: 0 <= i < |ws| ==> IsWord(ws[i])
  {
    Split(s, [])
  }

  /** The characters of `s` that are not white space, in order. */
  function NonSpace(s: string): (r: string)
  {
    if s == [] then []
    else (if IsSpace(s[0]) then [] else [s[0]]) + NonSpace(s[1..])
  }

  /** All the words, concatenated in order. */
  function Flatten(ws: seq<string>): string
  {
    if ws == [] then [] else ws[0] + Flatten(ws[1..])
  }

  /** The words joined by single spaces. */
  function Join(ws: seq<string>): string
  {
    if ws == [] then []
    else if |ws| == 1 then ws[0]
    else ws[0] + [' '] + Join(ws[1..])
  }

  /** Splitting loses only white space: the words, concatenated, are the
      non-white-space characters of the text. */
  lemma {:induction false} SplitKeepsNonSpace(s: string, cur: string)
    requires NoSpace(cur)
    ensures Flatten(Split(s, cur)) == cur + NonSpace(s)
    decreases |s|
  {
    if s == [] {
      if cur != [] {
        assert Flatten([cur]) == cur + Flatten([]);
      }
    } else if IsSpace(s[0]) {
      SplitKeepsNonSpace(s[1..], []);
      assert NonSpace(s) == NonSpace(s[1..]);
      var rest := Split(s[1..], []);
      assert Flatten(rest) == NonSpace(s[1..]);
      if cur != [] {
        assert Split(s, cur) == [cur] + rest;
        assert ([cur] + rest)[1..] == rest;
        assert Flatten([cur] + rest) == cur + Flatten(rest);
      } else {
        assert Split(s, cur) == rest;
      }
    } else {
      SplitKeepsNonSpace(s[1..], cur + [s[0]]);
    }
  }

  lemma WordsKeepNonSpace(s: string)
    ensures Flatten(Words(s)) == NonSpace(s)
  {
    SplitKeepsNonSpace(s, []);
  }

  /** Reading a run of non-white-space characters extends the current word. */
  lemma {:induction false} SplitReadsRun(w: string, rest: string, cur: string)
    requires NoSpace(cur) && NoSpace(w)
    ensures Split(w + rest, cur) == Split(rest, cur + w)
    decreases |w|
  {
    if w != [] {
      assert (w + rest)[0] == w[0];
      assert (w + rest)[1..] == w[1..] + rest;
      assert cur + [w[0]] + w[1..] == cur + w;
      SplitReadsRun(w[1..], rest, cur + [w[0]]);
    } else {
      assert w + rest == rest;
      assert cur + w == cur;
    }
  }

  /** A white-space character ends the current word and starts the next. */
  lemma {:induction false} SplitAtSpace(a: string, c: char, b: string, cur: string)
    requires IsSpace(c) && NoSpace(cur)
    ensures Split(a + [c] + b, cur) == Split(a, cur) + Split(b, [])
    decreases |a|
  {
    if a == [] {
      assert a + [c] + b == [c] + b;
      assert ([c] + b)[1..] == b;
    } else {
      assert (a + [c] + b)[0] == a[0];
      assert (a + [c] + b)[1..] == a[1..] + [c] + b;
      if IsSpace(a[0]) {
        SplitAtSpace(a[1..], c, b, []);
      } else {
        SplitAtSpace(a[1..], c, b, cur + [a[0]]);
      }
    }
  }

  /** Any white-space character, not only the space, separates words, and a
      run of them separates no more than one does. */
  lemma WordsSplitAtSpace(a: string, c: char, b: string)
    requires IsSpace(c)
    ensures Words(a + [c] + b) == Words(a) + Words(b)
  {
    SplitAtSpace(a, c, b, []);
  }

  /** Splitting words joined by single spaces gives back the words. */
  lemma {:induction false} WordsOfJoin(ws: seq<string>)
    requires forall i :: 0 <= i < |ws| ==> IsWord(ws[i])
    ensures Words(Join(ws)) == ws
  {
    if ws == [] {
    } else if |ws| == 1 {
      SplitReadsRun(ws[0], [], []);
      assert ws[0] + [] == ws[0];
      assert [] + ws[0] == ws[0];
    } else {
      var rest := [' '] + Join(ws[1..]);
      assert Join(ws) == ws[0] + rest;
      SplitReadsRun(ws[0], rest, []);
      assert [] + ws[0] == ws[0];
      assert rest[0] == ' ' && rest[1..] == Join(ws[1..]);
      WordsOfJoin(ws[1..]);
      assert ws == [ws[0]] + ws[1..];
    }
  }

  // ---------------------------------------------------------------------------
  // Statistics over the words
  // ---------------------------------------------------------------------------

  /** The sum of the lengths of the words. */
  function SumLengths(ws: seq<string>): nat
  {
    if ws == [] then 0 else SumLengths(ws[..|ws| - 1]) + |ws[|ws| - 1]|
  }

  lemma {:induction false} SumLengthsIsFlattenLength(ws: seq<string>)
    ensures SumLengths(ws) == |Flatten(ws)|
  {
    if ws != [] {
      var init := ws[..|ws| - 1];
      SumLengthsIsFlattenLength(init);
      FlattenAppend(init, ws[|ws| - 1]);
      assert ws == init + [ws[|ws| - 1]];
    }
  }

  lemma {:induction false} FlattenAppend(ws: seq<string>, w: string)
    ensures Flatten(ws + [w]) == Flatten(ws) + w
  {
    if ws == [] {
      assert [] + [w] == [w];
      assert Flatten([w]) == w + Flatten([]);
    } else {
      assert (ws + [w])[1..] == ws[1..] + [w];
      FlattenAppend(ws[1..], w);
    }
  }

  /** The total length of the words of a text is the number of its
      non-white-space characters. */
  lemma TotalLengthCountsNonSpace(s: string)
    ensures SumLengths(Words(s)) == |NonSpace(s)|
  {
    SumLengthsIsFlattenLength(Words(s));
    WordsKeepNonSpace(s);
  }

  /** The index of the first occurrence of `w` in `ws`, `|ws|` when absent. */
  function FirstIndex(ws: seq<string>, w: string): (k: nat)
    ensures k <= |ws|
    ensures k < |ws| ==> ws[k] == w
    ensures forall i :: 0 <= i < k ==> ws[i] != w
  {
    if ws == [] then 0
    else if ws[0] == w then 0
    else 1 + FirstIndex(ws[1..], w)
  }

  /** The words that no other word is longer than. */
  predicate IsLongest(ws: seq<string>, w: string) {
    w in ws && forall v :: v in ws ==> |v| <= |w|
  }

  /** A non-empty list of words has a longest word. */
  lemma {:induction false} LongestExists(ws: seq<string>)
    requires ws != []
    ensures exists w :: IsLongest(ws, w)
  {
    if |ws| == 1 {
      assert IsLongest(ws, ws[0]);
    } else {
      LongestExists(ws[1..]);
      var w :| IsLongest(ws[1..], w);
      assert ws == [ws[0]] + ws[1..];
      if |ws[0]| > |w| {
        assert IsLongest(ws, ws[0]);
      } else {
        assert IsLongest(ws, w);
      }
    }
  }

  method TotalLength(words: seq<string>) returns (total: nat)
    ensures total == SumLengths(words)
  {
    total := 0;
    for i := 0 to |words|
      invariant total == SumLengths(words[..i])
    {
      assert words[..i + 1][..i] == words[..i];
      total := total + |words[i]|;
    }
    assert words[..|words|] == words;
  }

  method MaxLength(words: seq<string>) returns (maxLen: nat)
    ensures forall i :: 0 <= i < |words| ==> |words[i]| <= maxLen
    ensures words == [] ==> maxLen == 0
    ensures words != [] ==> exists i :: 0 <= i < |words| && |words[i]| == maxLen
  {
    maxLen := 0;
    for i := 0 to |words|
      invariant forall k :: 0 <= k < i ==> |words[k]| <= maxLen
      invariant maxLen == 0 || exists k :: 0 <= k < i && |words[k]| == maxLen
    {
      if |words[i]| > maxLen {
        maxLen := |words[i]|;
      }
    }
    if words != [] && maxLen == 0 {
      assert |words[0]| == maxLen;
    }
  }

  lemma FirstIndexAt(ws: seq<string>, k: nat)
    requires k < |ws| && ws[k] !in ws[..k]
    ensures FirstIndex(ws, ws[k]) == k
  {
  }

  predicate NoDuplicates(s: seq<string>) {
    forall i, j :: 0 <= i < j < |s| ==> s[i] != s[j]
  }

  /** The entries of `s` are listed in the order in which they first occur
      in `words`. */
  predicate InFirstOccurrenceOrder(words: seq<string>, s: seq<string>) {
    forall i, j :: 0 <= i < j < |s| ==> FirstIndex(words, s[i]) < FirstIndex(words, s[j])
  }

  /** The distinct words of length `maxLen`, in order of first occurrence. */
  method LongestWords(words: seq<string>, maxLen: nat) returns (longest: seq<string>)
    ensures NoDuplicates(longest)
    ensures forall w :: w in longest <==> w in words && |w| == maxLen
    ensures InFirstOccurrenceOrder(words, longest)
  {
    longest := [];
    for k := 0 to |words|
      invariant forall i, j :: 0 <= i < j < |longest| ==> longest[i] != longest[j]
      invariant forall w :: w in longest <==> w in words[..k] && |w| == maxLen
      invariant forall i :: 0 <= i < |longest| ==> FirstIndex(words, longest[i]) < k
      invariant forall i, j :: 0 <= i < j < |longest|
                  ==> FirstIndex(words, longest[i]) < FirstIndex(words, longest[j])
    {
      var w := words[k];
      assert words[..k + 1] == words[..k] + [w];
      if |w| == maxLen && w !in longest {
        FirstIndexAt(words, k);
        longest := longest + [w];
      }
    }
    assert words[..|words|] == words;
  }

  /** The keys of `freq` are the distinct words, each mapped to the number
      of its occurrences. */
  ghost predicate IsFrequencyMap(words: seq<string>, freq: map<string, nat>) {
    && (forall w :: w in freq <==> w in words)
    && (forall w :: w in freq ==> freq[w] == multiset(words)[w])
  }

  /** How often each word occurs. */
  method WordFrequency(words: seq<string>) returns (freq: map<string, nat>)
    ensures IsFrequencyMap(words, freq)
  {
    freq := map[];
    for i := 0 to |words|
      invariant forall w :: w in freq <==> w in words[..i]
      invariant forall w :: w in freq ==> freq[w] == multiset(words[..i])[w]
    {
      var w := words[i];
      assert words[..i + 1] == words[..i] + [w];
      if w !in freq {
        freq := freq[w := 0];
      }
      freq := freq[w := freq[w] + 1];
    }
    assert words[..|words|] == words;
  }

  // ---------------------------------------------------------------------------
  // Sum of the frequencies
  // ---------------------------------------------------------------------------

  ghost function Pick(keys: set<string>): string
    requires keys != {}
  {
    var k :| k in keys; k
  }

  /** The sum of the values of a map. */
  ghost function SumValues(m: map<string, nat>): nat
    decreases |m|
  {
    if m == map[] then 0
    else
      var k := Pick(m.Keys);
      assert |(m - {k}).Keys| == |m.Keys - {k}|;
      m[k] + SumValues(m - {k})
  }

  lemma {:induction false} SumValuesRemove(m: map<string, nat>, k: string)
    requires k in m
    ensures SumValues(m) == m[k] + SumValues(m - {k})
    decreases |m|
  {
    var j := Pick(m.Keys);
    if j != k {
      assert |(m - {j}).Keys| == |m.Keys - {j}|;
      SumValuesRemove(m - {j}, k);
      assert |(m - {k}).Keys| == |m.Keys - {k}|;
      SumValuesRemove(m - {k}, j);
      assert (m - {j}) - {k} == (m - {k}) - {j};
    }
  }

  /** The frequencies add up to the number of words. */
  lemma {:induction false} FrequenciesSumToWordCount(words: seq<string>, freq: map<string, nat>)
    requires IsFrequencyMap(words, freq)
    ensures SumValues(freq) == |words|
  {
    if words == [] {
      assert freq == map[];
    } else {
      var init := words[..|words| - 1];
      var x := words[|words| - 1];
      assert words == init + [x];
      assert x in freq;
      if x in init {
        var prev := freq[x := freq[x] - 1];
        FrequenciesSumToWordCount(init, prev);
        SumValuesRemove(freq, x);
        SumValuesRemove(prev, x);
        assert prev - {x} == freq - {x};
      } else {
        var prev := freq - {x};
        FrequenciesSumToWordCount(init, prev);
        SumValuesRemove(freq, x);
      }
    }
  }

  // ---------------------------------------------------------------------------
  // The analysis
  // ---------------------------------------------------------------------------

  /** The words of the maximum length are the longest words, and there is
      one exactly when there is a word at all. */
  lemma LongestOfMaxLength(words: seq<string>, maxLen: nat, longest: seq<string>)
    requires forall i :: 0 <= i < |words| ==> |words[i]| <= maxLen
    requires words != [] ==> exists i :: 0 <= i < |words| && |words[i]| == maxLen
    requires forall w :: w in longest <==> w in words && |w| == maxLen
    ensures forall w :: w in longest <==> IsLongest(words, w)
    ensures longest == [] <==> words == []
  {
    forall w ensures w in longest <==> IsLongest(words, w) {
      if w in words && |w| == maxLen {
        forall v | v in words ensures |v| <= |w| {
          var i :| 0 <= i < |words| && words[i] == v;
        }
      }
      if IsLongest(words, w) {
        var i :| 0 <= i < |words| && |words[i]| == maxLen;
        assert words[i] in words;
      }
    }
    if words != [] {
      LongestExists(words);
      var w :| IsLongest(words, w);
      assert w in longest;
    }
    assert longest != [] ==> longest[0] in longest;
  }

  /** The statistics of `text`: the word count, the total length of the
      words, the distinct longest words in order of first occurrence, and the
      frequency of every word. */
  method AnalyzeText(text: string) returns (a: Analysis)
    ensures var words := Words(Clean(text));
      && a.wordCount == |words|
      && a.totalLength == SumLengths(words)
      && NoDuplicates(a.longestWords)
      && (forall w :: w in a.longestWords <==> IsLongest(words, w))
      && InFirstOccurrenceOrder(words, a.longestWords)
      && (a.longestWords == [] <==> words == [])
      && IsFrequencyMap(words, a.wordFrequency)
      && SumValues(a.wordFrequency) == a.wordCount
  {
    var cleaned := Clean(text);
    var words := Words(cleaned);
    var wordCount := |words|;
    var totalLength := TotalLength(words);
    var maxLen := MaxLength(words);
    var longestWords := LongestWords(words, maxLen);
    var wordFrequency := WordFrequency(words);
    LongestOfMaxLength(words, maxLen, longestWords);
    FrequenciesSumToWordCount(words, wordFrequency);
    a := Analysis(wordCount, totalLength, longestWords, wordFrequency);
  }
}
