/** The sensitive-word filter of internal/sensitive/filter.go.

    `lower` is Go's rune-wise lower-casing; all that is asked of it is that it neither makes nor
    removes white space.
  */
module Sensitive {
  import opened GoStrings
  import opened Sequences
  import opened Wrappers

  type Casing = char -> char

  ghost predicate KeepsSpace(lower: Casing) {
    forall c {:trigger lower(c)} :: IsSpace(lower(c)) <==> IsSpace(c)
  }

  function ToLower(lower: Casing, s: string): (r: string)
    ensures |r| == |s|
  {
    seq(|s|, i requires 0 <= i < |s| => lower(s[i]))
  }

  function Normalize(lower: Casing, s: string): string {
    ToLower(lower, TrimSpace(s))
  }

  predicate OccursAt(s: string, word: string, k: int) {
    0 <= k <= |s| - |word| && s[k..k + |word|] == word
  }

  predicate Contains(s: string, word: string) {
    exists k :: 0 <= k <= |s| - |word| && OccursAt(s, word, k)
  }

  /** The words of a filter: the normalised ones, without the blank ones, in the given order. */
  function Cleaned(lower: Casing, words: seq<string>): seq<string> {
    if words == [] then []
    else
      var earlier, word := Cleaned(lower, Init(words)), Normalize(lower, Last(words));
      if word == "" then earlier else earlier + [word]
  }

  function FirstMatch(words: seq<string>, content: string): Option<string> {
    if words == [] then None
    else if Contains(content, words[0]) then Some(words[0])
    else FirstMatch(words[1..], content)
  }

  class Filter {
    const words: seq<string>
    const lower: Casing

    constructor (words: seq<string>, lower: Casing)
      ensures this.words == words && this.lower == lower
    {
      this.words, this.lower := words, lower;
    }

    static method New(words: seq<string>, lower: Casing) returns (f: Filter)
      ensures f.words == Cleaned(lower, words) && f.lower == lower
    {
      var cleaned: seq<string> := [];
      for i := 0 to |words|
        invariant cleaned == Cleaned(lower, words[..i])
      {
        assert Init(words[..i + 1]) == words[..i];
        var word := Normalize(lower, words[i]);
        if word == "" {
          continue;
        }
        cleaned := cleaned + [word];
      }
      assert words[..|words|] == words;
      f := new Filter(cleaned, lower);
    }

    method Match(content: string) returns (word: string, matched: bool)
      ensures FirstMatch(words, Normalize(lower, content)) == if matched then Some(word) else None
      ensures !matched ==> word == ""
    {
      var normalized := Normalize(lower, content);
      for i := 0 to |words|
        invariant FirstMatch(words, normalized) == FirstMatch(words[i..], normalized)
      {
        assert words[i..][0] == words[i] && words[i..][1..] == words[i + 1..];
        if Contains(normalized, words[i]) {
          return words[i], true;
        }
      }
      return "", false;
    }
  }

  // ---------------------------------------------------------------------------------------------
  // What a match means
  // ---------------------------------------------------------------------------------------------

  /** Can `word` occur only inside the trimmed part of a text? */
  predicate Solid(word: string) {
    word != "" && Trimmed(word)
  }

  lemma NormalizedIsTrimmed(lower: Casing, s: string)
    requires KeepsSpace(lower)
    ensures Trimmed(Normalize(lower, s))
    ensures Normalize(lower, s) == "" <==> Blank(s)
  {
    TrimSpaceIsTrimmed(s);
  }

  /** The filter's words are exactly the normalised non-blank words, and they are solid. */
  lemma {:induction false} CleanedWordsAreSolid(lower: Casing, words: seq<string>)
    requires KeepsSpace(lower)
    ensures forall i :: 0 <= i < |Cleaned(lower, words)| ==> Solid(Cleaned(lower, words)[i])
    ensures forall i :: 0 <= i < |words| && !Blank(words[i]) ==> Normalize(lower, words[i]) in Cleaned(lower, words)
    ensures forall w :: w in Cleaned(lower, words) ==>
              exists i :: 0 <= i < |words| && !Blank(words[i]) && w == Normalize(lower, words[i])
  {
    if words != [] {
      var earlier, word := Cleaned(lower, Init(words)), Normalize(lower, Last(words));
      NormalizedIsTrimmed(lower, Last(words));
      CleanedWordsAreSolid(lower, Init(words));
      forall w | w in Cleaned(lower, words)
        ensures exists i :: 0 <= i < |words| && !Blank(words[i]) && w == Normalize(lower, words[i])
      {
        if w in earlier {
          var i :| 0 <= i < |words| - 1 && !Blank(Init(words)[i]) && w == Normalize(lower, Init(words)[i]);
          assert words[i] == Init(words)[i];
        } else {
          assert words[|words| - 1] == Last(words) && w == word;
        }
      }
    }
  }

  /** An occurrence of a solid word cannot reach into the white space around `s[i..j]`. */
  lemma OccursInside(lower: Casing, s: string, word: string, i: nat, j: nat, k: nat)
    requires KeepsSpace(lower) && Solid(word) && i <= j <= |s| && Blank(s[..i]) && Blank(s[j..])
    requires OccursAt(ToLower(lower, s), word, k)
    ensures i <= k && k + |word| <= j
  {
    var whole, last := ToLower(lower, s), k + |word| - 1;
    assert whole[k] == whole[k..k + |word|][0] && whole[last] == whole[k..k + |word|][|word| - 1];
    assert forall m :: 0 <= m < i ==> s[m] == s[..i][m];
    assert forall m :: j <= m < |s| ==> s[m] == s[j..][m - j];
  }

  lemma OccursInPart(whole: string, word: string, i: nat, j: nat, d: nat)
    requires i + d + |word| <= j <= |whole|
    ensures OccursAt(whole[i..j], word, d) <==> OccursAt(whole, word, i + d)
  {
    var one, other := whole[i..j][d..d + |word|], whole[i + d..i + d + |word|];
    forall m | 0 <= m < |word|
      ensures one[m] == other[m]
    {
      assert whole[i..j][d + m] == whole[i + d + m];
    }
    assert one == other;
  }

  /** A solid word occurs in a text exactly when it occurs in the trimmed text. */
  lemma TrimmingKeepsOccurrences(lower: Casing, content: string, word: string)
    requires KeepsSpace(lower) && Solid(word)
    ensures Contains(Normalize(lower, content), word) <==> Contains(ToLower(lower, content), word)
  {
    var i, j := TrimSpan(content);
    var whole, part := ToLower(lower, content), Normalize(lower, content);
    assert part == whole[i..j];
    if Contains(whole, word) {
      var k :| 0 <= k <= |whole| - |word| && OccursAt(whole, word, k);
      OccursInside(lower, content, word, i, j, k);
      OccursInPart(whole, word, i, j, k - i);
    }
    if Contains(part, word) {
      var k :| 0 <= k <= |part| - |word| && OccursAt(part, word, k);
      OccursInPart(whole, word, i, j, k);
      assert OccursAt(whole, word, i + k);
    }
  }

  lemma {:induction false} SameOccurrencesSameMatch(words: seq<string>, one: string, other: string)
    requires forall i :: 0 <= i < |words| ==> (Contains(one, words[i]) <==> Contains(other, words[i]))
    ensures FirstMatch(words, one) == FirstMatch(words, other)
  {
    if words != [] {
      SameOccurrencesSameMatch(words[1..], one, other);
    }
  }

  /** Trimming the content never changes the verdict. */
  lemma TrimmingKeepsVerdict(lower: Casing, words: seq<string>, content: string)
    requires KeepsSpace(lower)
    ensures FirstMatch(Cleaned(lower, words), Normalize(lower, content)) ==
            FirstMatch(Cleaned(lower, words), ToLower(lower, content))
  {
    var cleaned := Cleaned(lower, words);
    CleanedWordsAreSolid(lower, words);
    forall i | 0 <= i < |cleaned|
      ensures Contains(Normalize(lower, content), cleaned[i]) <==> Contains(ToLower(lower, content), cleaned[i])
    {
      TrimmingKeepsOccurrences(lower, content, cleaned[i]);
    }
    SameOccurrencesSameMatch(cleaned, Normalize(lower, content), ToLower(lower, content));
  }

  /** The verdict is the first word of the list that occurs, if there is one. */
  lemma {:induction false} FirstMatchIsFirst(words: seq<string>, content: string)
    ensures FirstMatch(words, content).None? <==> forall i :: 0 <= i < |words| ==> !Contains(content, words[i])
    ensures FirstMatch(words, content).Some? ==>
              exists i :: 0 <= i < |words| && FirstMatch(words, content) == Some(words[i]) && Contains(content, words[i])
                          && forall j :: 0 <= j < i ==> !Contains(content, words[j])
  {
    if words != [] {
      FirstMatchIsFirst(words[1..], content);
      if Contains(content, words[0]) {
        assert FirstMatch(words, content) == Some(words[0]);
      } else if FirstMatch(words, content).Some? {
        var i :| 0 <= i < |words[1..]| && FirstMatch(words[1..], content) == Some(words[1..][i])
                 && Contains(content, words[1..][i]) && forall j :: 0 <= j < i ==> !Contains(content, words[1..][j]);
        assert words[i + 1] == words[1..][i];
        assert forall j :: 0 < j < i + 1 ==> words[j] == words[1..][j - 1];
      } else {
        assert forall j :: 0 < j < |words| ==> words[j] == words[1..][j - 1];
      }
    }
  }

  // ---------------------------------------------------------------------------------------------
  // The same, character by character
  // ---------------------------------------------------------------------------------------------

  /** From position `k` on `content` spells `word[x..y]`, which is the word without the white space at
      its ends, in whatever case. */
  ghost predicate SpelledAt(lower: Casing, content: string, word: string, x: int, y: int, k: int) {
    && 0 <= x < y <= |word| && 0 <= k <= |content| - (y - x)
    && Blank(word[..x]) && Blank(word[y..]) && !IsSpace(word[x]) && !IsSpace(word[y - 1])
    && forall m :: x <= m < y ==> lower(content[k + (m - x)]) == lower(word[m])
  }

  ghost predicate Spelled(lower: Casing, content: string, word: string) {
    exists x, y, k :: SpelledAt(lower, content, word, x, y, k)
  }

  /** There is only one way to cut the white space off. */
  lemma OneSpan(word: string, x: int, y: int)
    requires 0 <= x < y <= |word| && Blank(word[..x]) && Blank(word[y..]) && !IsSpace(word[x]) && !IsSpace(word[y - 1])
    ensures TrimSpace(word) == word[x..y]
  {
    var i, j := TrimSpan(word);
    assert forall m :: 0 <= m < x ==> word[m] == word[..x][m];
    assert forall m :: y <= m < |word| ==> word[m] == word[y..][m - y];
    assert forall m :: 0 <= m < i ==> word[m] == word[..i][m];
    assert forall m :: j <= m < |word| ==> word[m] == word[j..][m - j];
    if i != j {
      assert word[i..j][0] == word[i] && word[i..j][j - i - 1] == word[j - 1];
    }
  }

  lemma SpellingIsOccurrence(lower: Casing, content: string, word: string, x: int, y: int, k: int)
    requires 0 <= x < y <= |word| && TrimSpace(word) == word[x..y] && 0 <= k <= |content| - (y - x)
    ensures OccursAt(ToLower(lower, content), Normalize(lower, word), k) <==>
            forall m :: x <= m < y ==> lower(content[k + (m - x)]) == lower(word[m])
  {
    var normal, part := Normalize(lower, word), ToLower(lower, content)[k..k + (y - x)];
    assert |normal| == |part| == y - x;
    forall q | 0 <= q < y - x
      ensures normal[q] == lower(word[x + q]) && part[q] == lower(content[k + q])
    {
      assert word[x..y][q] == word[x + q];
    }
    if part == normal {
      forall m | x <= m < y
        ensures lower(content[k + (m - x)]) == lower(word[m])
      {
        assert part[m - x] == normal[m - x];
      }
    }
    if forall m :: x <= m < y ==> lower(content[k + (m - x)]) == lower(word[m]) {
      forall q | 0 <= q < y - x
        ensures part[q] == normal[q]
      {
        assert lower(content[k + ((x + q) - x)]) == lower(word[x + q]);
      }
      assert part == normal;
    }
  }

  lemma OccursExactlyWhenSpelled(lower: Casing, content: string, word: string)
    requires !Blank(word)
    ensures Contains(ToLower(lower, content), Normalize(lower, word)) <==> Spelled(lower, content, word)
  {
    var text, normal := ToLower(lower, content), Normalize(lower, word);
    var i, j := TrimSpan(word);
    TrimSpaceIsTrimmed(word);
    if Contains(text, normal) {
      var k :| 0 <= k <= |text| - |normal| && OccursAt(text, normal, k);
      SpellingIsOccurrence(lower, content, word, i, j, k);
      assert word[i..j][0] == word[i] && word[i..j][j - i - 1] == word[j - 1];
      assert SpelledAt(lower, content, word, i, j, k);
    }
    if x, y, k :| SpelledAt(lower, content, word, x, y, k) {
      OneSpan(word, x, y);
      SpellingIsOccurrence(lower, content, word, x, y, k);
      assert OccursAt(text, normal, k);
    }
  }

  lemma SpelledIsNotBlank(lower: Casing, content: string, word: string)
    requires Spelled(lower, content, word)
    ensures !Blank(word)
  {
    var x, y, k :| SpelledAt(lower, content, word, x, y, k);
  }

  /** The `i`-th kept word is the normal form of the word at `positions[i]`; positions ascend and miss no
      word that is not blank. */
  ghost predicate Origins(lower: Casing, words: seq<string>, cleaned: seq<string>, positions: seq<nat>) {
    && |positions| == |cleaned|
    && (forall i :: 0 <= i < |positions| ==> positions[i] < |words|)
    && (forall i :: 0 <= i < |positions| ==>
          !Blank(words[positions[i]]) && cleaned[i] == Normalize(lower, words[positions[i]]))
    && (forall i, j :: 0 <= i < j < |positions| ==> positions[i] < positions[j])
    && (forall n :: 0 <= n < |words| && !Blank(words[n]) ==> n in positions)
  }

  lemma OriginsOneMore(lower: Casing, words: seq<string>, cleaned: seq<string>, positions: seq<nat>, word: string)
    requires Origins(lower, words, cleaned, positions) && !Blank(word)
    ensures Origins(lower, words + [word], cleaned + [Normalize(lower, word)], positions + [|words|])
  {
    var longer := words + [word];
    forall n | 0 <= n < |longer| && !Blank(longer[n])
      ensures n in positions + [|words|]
    {
      if n < |words| {
        assert longer[n] == words[n];
      }
    }
  }

  lemma OriginsOneBlank(lower: Casing, words: seq<string>, cleaned: seq<string>, positions: seq<nat>, word: string)
    requires Origins(lower, words, cleaned, positions) && Blank(word)
    ensures Origins(lower, words + [word], cleaned, positions)
  {
  }

  lemma {:induction false} CleanedInOrder(lower: Casing, words: seq<string>) returns (positions: seq<nat>)
    requires KeepsSpace(lower)
    ensures Origins(lower, words, Cleaned(lower, words), positions)
  {
    if words == [] {
      positions := [];
    } else {
      positions := CleanedInOrder(lower, Init(words));
      NormalizedIsTrimmed(lower, Last(words));
      assert words == Init(words) + [Last(words)];
      if Blank(Last(words)) {
        OriginsOneBlank(lower, Init(words), Cleaned(lower, Init(words)), positions, Last(words));
      } else {
        OriginsOneMore(lower, Init(words), Cleaned(lower, Init(words)), positions, Last(words));
        positions := positions + [|words| - 1];
      }
    }
  }

  /** The kept words that occur are those whose originals are spelled. */
  lemma KeptWordsAreSpelled(lower: Casing, words: seq<string>, cleaned: seq<string>, positions: seq<nat>, content: string)
    requires Origins(lower, words, cleaned, positions)
    ensures forall q :: 0 <= q < |cleaned| ==>
              (Contains(ToLower(lower, content), cleaned[q]) <==> Spelled(lower, content, words[positions[q]]))
  {
    forall q | 0 <= q < |cleaned|
      ensures Contains(ToLower(lower, content), cleaned[q]) <==> Spelled(lower, content, words[positions[q]])
    {
      OccursExactlyWhenSpelled(lower, content, words[positions[q]]);
    }
  }

  /** A message is refused exactly when its content spells some word of the original list, in whatever
      case and apart from the white space at the ends of the word. */
  lemma RefusedExactlyWhenWordOccurs(lower: Casing, words: seq<string>, content: string)
    requires KeepsSpace(lower)
    ensures FirstMatch(Cleaned(lower, words), Normalize(lower, content)).Some? <==>
            exists i :: 0 <= i < |words| && Spelled(lower, content, words[i])
  {
    var cleaned, text := Cleaned(lower, words), ToLower(lower, content);
    TrimmingKeepsVerdict(lower, words, content);
    FirstMatchIsFirst(cleaned, text);
    var positions := CleanedInOrder(lower, words);
    KeptWordsAreSpelled(lower, words, cleaned, positions, content);
    forall n | 0 <= n < |words| && Spelled(lower, content, words[n])
      ensures exists q :: 0 <= q < |cleaned| && Contains(text, cleaned[q])
    {
      SpelledIsNotBlank(lower, content, words[n]);
      var q :| 0 <= q < |positions| && positions[q] == n;
      assert Contains(text, cleaned[q]);
    }
  }

  /** What is reported is the first word of the original list that the content spells. */
  lemma ReportsFirstSpelledWord(lower: Casing, words: seq<string>, content: string) returns (i: nat)
    requires KeepsSpace(lower) && FirstMatch(Cleaned(lower, words), Normalize(lower, content)).Some?
    ensures i < |words|
    ensures IsFirstSpelled(lower, words, content, FirstMatch(Cleaned(lower, words), Normalize(lower, content)).value, i)
  {
    var cleaned, text := Cleaned(lower, words), ToLower(lower, content);
    TrimmingKeepsVerdict(lower, words, content);
    FirstMatchIsFirst(cleaned, text);
    var positions := CleanedInOrder(lower, words);
    KeptWordsAreSpelled(lower, words, cleaned, positions, content);
    var q :| 0 <= q < |cleaned| && FirstMatch(cleaned, text) == Some(cleaned[q]) && Contains(text, cleaned[q])
             && forall j :: 0 <= j < q ==> !Contains(text, cleaned[j]);
    FirstOfPositions(lower, words, content, positions, q);
    i := positions[q];
    ReportedSpelling(lower, content, words[i]);
  }

  /** `w` is the lower-case form, without the white space at the ends, of the `i`-th word, which is the
      first one the content spells. */
  ghost predicate IsFirstSpelled(lower: Casing, words: seq<string>, content: string, w: string, i: nat)
    requires i < |words|
  {
    && (exists x, y, k :: SpelledAt(lower, content, words[i], x, y, k) && |w| == y - x
                          && forall m :: x <= m < y ==> w[m - x] == lower(words[i][m]))
    && forall j :: 0 <= j < i ==> !Spelled(lower, content, words[j])
  }

  lemma FirstOfPositions(lower: Casing, words: seq<string>, content: string, positions: seq<nat>, q: nat)
    requires q < |positions| && forall i :: 0 <= i < |positions| ==> positions[i] < |words|
    requires forall i, j :: 0 <= i < j < |positions| ==> positions[i] < positions[j]
    requires forall n :: 0 <= n < |words| && !Blank(words[n]) ==> n in positions
    requires forall j :: 0 <= j < q ==> !Spelled(lower, content, words[positions[j]])
    ensures forall j :: 0 <= j < positions[q] ==> !Spelled(lower, content, words[j])
  {
    forall j | 0 <= j < positions[q]
      ensures !Spelled(lower, content, words[j])
    {
      if !Blank(words[j]) {
        var i :| 0 <= i < |positions| && positions[i] == j;
        assert !(q < i) && i != q;
      } else if Spelled(lower, content, words[j]) {
        SpelledIsNotBlank(lower, content, words[j]);
      }
    }
  }

  lemma ReportedSpelling(lower: Casing, content: string, word: string)
    requires Spelled(lower, content, word)
    ensures exists x, y, k :: SpelledAt(lower, content, word, x, y, k) && |Normalize(lower, word)| == y - x
                              && forall m :: x <= m < y ==> Normalize(lower, word)[m - x] == lower(word[m])
  {
    var x, y, k :| SpelledAt(lower, content, word, x, y, k);
    OneSpan(word, x, y);
    assert forall m :: x <= m < y ==> word[x..y][m - x] == word[m];
  }

  /** Two texts that differ in case only. */
  ghost predicate SameButCase(lower: Casing, a: string, b: string) {
    |a| == |b| && forall i :: 0 <= i < |a| ==> lower(a[i]) == lower(b[i])
  }

  lemma BlankInAnyCase(lower: Casing, a: string, b: string, i: nat, j: nat)
    requires KeepsSpace(lower) && SameButCase(lower, a, b) && i <= j <= |a| && Blank(a[i..j])
    ensures Blank(b[i..j])
  {
    SameSpace(lower, a, b);
    forall m | 0 <= m < j - i
      ensures IsSpace(b[i..j][m])
    {
      assert IsSpace(a[i..j][m]) && a[i..j][m] == a[i + m] && b[i..j][m] == b[i + m];
    }
  }

  lemma SpelledInAnyCase(lower: Casing, content: string, content': string, word: string, word': string)
    requires KeepsSpace(lower) && SameButCase(lower, content, content') && SameButCase(lower, word, word')
    requires Spelled(lower, content, word)
    ensures Spelled(lower, content', word')
  {
    var x, y, k :| SpelledAt(lower, content, word, x, y, k);
    SameSpace(lower, word, word');
    assert word[..x] == word[0..x] && word'[..x] == word'[0..x];
    assert word[y..] == word[y..|word|] && word'[y..] == word'[y..|word|];
    BlankInAnyCase(lower, word, word', 0, x);
    BlankInAnyCase(lower, word, word', y, |word|);
    forall m | x <= m < y
      ensures lower(content'[k + (m - x)]) == lower(word'[m])
    {
      assert lower(content[k + (m - x)]) == lower(word[m]);
      assert lower(content[k + (m - x)]) == lower(content'[k + (m - x)]);
    }
    assert SpelledAt(lower, content', word', x, y, k);
  }

  lemma SameSpace(lower: Casing, a: string, b: string)
    requires KeepsSpace(lower) && SameButCase(lower, a, b)
    ensures forall i :: 0 <= i < |a| ==> (IsSpace(a[i]) <==> IsSpace(b[i]))
  {
    forall i | 0 <= i < |a|
      ensures IsSpace(a[i]) <==> IsSpace(b[i])
    {
      assert IsSpace(lower(a[i])) <==> IsSpace(a[i]);
      assert IsSpace(lower(b[i])) <==> IsSpace(b[i]);
    }
  }

  /** Case matters neither in the content nor in the word list. */
  lemma CaseDoesNotMatter(lower: Casing, words: seq<string>, words': seq<string>, content: string, content': string)
    requires KeepsSpace(lower) && SameButCase(lower, content, content')
    requires |words| == |words'| && forall i :: 0 <= i < |words| ==> SameButCase(lower, words[i], words'[i])
    ensures FirstMatch(Cleaned(lower, words), Normalize(lower, content)).Some? <==>
            FirstMatch(Cleaned(lower, words'), Normalize(lower, content')).Some?
  {
    RefusedExactlyWhenWordOccurs(lower, words, content);
    RefusedExactlyWhenWordOccurs(lower, words', content');
    forall i | 0 <= i < |words|
      ensures Spelled(lower, content, words[i]) <==> Spelled(lower, content', words'[i])
    {
      if Spelled(lower, content, words[i]) {
        SpelledInAnyCase(lower, content, content', words[i], words'[i]);
      }
      if Spelled(lower, content', words'[i]) {
        SpelledInAnyCase(lower, content', content, words'[i], words[i]);
      }
    }
  }
}
