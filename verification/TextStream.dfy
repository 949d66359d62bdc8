/** Splitting an answer into chunks for streaming. */
module TextStream {

  const CHUNK_TARGET := 48

  /** `text.split(" ")`: one more word than there are spaces; words may be empty. */
  function Words(text: string): (words: seq<string>)
    ensures words != []
    ensures forall i :: 0 <= i < |words| ==> ' ' !in words[i]
  {
    if text == "" then [""] else
    var words := Words(text[..|text| - 1]);
    var last := text[|text| - 1];
    if last == ' ' then words + [""]
    else words[..|words| - 1] + [words[|words| - 1] + [last]]
  }

  /** The words joined by single spaces. */
  function Joined(words: seq<string>): string
    requires words != []
  {
    if |words| == 1 then words[0] else Joined(words[..|words| - 1]) + " " + words[|words| - 1]
  }

  lemma JoinedAddsWord(words: seq<string>)
    requires words != []
    ensures Joined(words + [""]) == Joined(words) + " "
  {
    var longer := words + [""];
    assert longer[..|longer| - 1] == words;
  }

  lemma JoinedAddsChar(words: seq<string>, c: char)
    requires words != []
    ensures Joined(words[..|words| - 1] + [words[|words| - 1] + [c]]) == Joined(words) + [c]
  {
    var n := |words| - 1;
    var longer := words[..n] + [words[n] + [c]];
    assert longer[..n] == words[..n];
    if n > 0 {
      var head := Joined(words[..n]) + " ";
      assert head + (words[n] + [c]) == (head + words[n]) + [c];
    }
  }

  lemma {:induction false} JoinedWords(text: string)
    ensures Joined(Words(text)) == text
  {
    hide Joined;
    if text != "" {
      var front, last := text[..|text| - 1], text[|text| - 1];
      JoinedWords(front);
      JoinedAddsWord(Words(front));
      JoinedAddsChar(Words(front), last);
      assert text == front + [last];
    } else {
      JoinedNothing();
    }
  }

  lemma JoinedNothing()
    ensures Joined([""]) == ""
  {
  }

  // ---- What the loop carries ---------------------------------------------------------

  /** The chunk under construction after the first n words. */
  function Current(words: seq<string>, n: nat): string
    requires n <= |words|
  {
    if n == 0 then "" else
    var before, word := Current(words, n - 1), words[n - 1];
    if before == "" then word
    else if |before| + 1 + |word| > CHUNK_TARGET then word
    else before + " " + word
  }

  /** How often a word other than the first met an empty chunk, and the space before it was lost. */
  function Lost(words: seq<string>, n: nat): nat
    requires n <= |words|
  {
    if n == 0 then 0
    else Lost(words, n - 1) + if n > 1 && Current(words, n - 1) == "" then 1 else 0
  }

  function Concat(chunks: seq<string>): string {
    if chunks == [] then "" else Concat(chunks[..|chunks| - 1]) + chunks[|chunks| - 1]
  }

  function NonSpaces(s: string): string {
    if s == "" then "" else NonSpaces(s[..|s| - 1]) + if s[|s| - 1] == ' ' then "" else [s[|s| - 1]]
  }

  lemma {:induction false} NonSpacesConcat(a: string, b: string)
    ensures NonSpaces(a + b) == NonSpaces(a) + NonSpaces(b)
  {
    if b == "" {
      assert a + b == a;
    } else {
      assert (a + b)[..|a + b| - 1] == a + b[..|b| - 1];
      NonSpacesConcat(a, b[..|b| - 1]);
    }
  }

  lemma NonSpacesOfSpace()
    ensures NonSpaces(" ") == ""
  {
    assert " "[..0] == "";
  }

  lemma JoinedExtends(words: seq<string>, n: nat)
    requires 1 <= n < |words|
    ensures Joined(words[..n + 1]) == Joined(words[..n]) + " " + words[n]
  {
    assert words[..n + 1][..n] == words[..n];
  }

  /** A finished chunk: short, or one word with at most one trailing space. */
  predicate ChunkOk(words: seq<string>, chunk: string) {
    |chunk| <= CHUNK_TARGET + 1 || exists i :: 0 <= i < |words| && (chunk == words[i] || chunk == words[i] + " ")
  }

  /** The chunk under construction is short or one word. */
  predicate CurrentOk(words: seq<string>, current: string) {
    |current| <= CHUNK_TARGET || exists i :: 0 <= i < |words| && current == words[i]
  }

  /** The output so far against the words so far: equal when nothing was lost, shorter by exactly
      the lost spaces, and with the same non-space characters in the same order. */
  ghost predicate Tracks(words: seq<string>, n: nat, output: string)
    requires 1 <= n <= |words|
  {
    var whole := Joined(words[..n]);
    && |output| + Lost(words, n) == |whole|
    && (Lost(words, n) == 0 ==> output == whole)
    && NonSpaces(output) == NonSpaces(whole)
  }

  lemma TracksKeptSpace(words: seq<string>, n: nat, output: string)
    requires 1 <= n < |words| && Tracks(words, n, output) && Current(words, n) != ""
    ensures Tracks(words, n + 1, output + " " + words[n])
  {
    hide Current, Joined, NonSpaces;
    JoinedExtends(words, n);
    NonSpacesConcat(output + " ", words[n]);
    NonSpacesConcat(output, " ");
    var whole := Joined(words[..n]);
    NonSpacesConcat(whole + " ", words[n]);
    NonSpacesConcat(whole, " ");
  }

  lemma TracksLostSpace(words: seq<string>, n: nat, output: string)
    requires 1 <= n < |words| && Tracks(words, n, output) && Current(words, n) == ""
    ensures Tracks(words, n + 1, output + words[n])
  {
    hide Current, Joined, NonSpaces;
    JoinedExtends(words, n);
    NonSpacesConcat(output, words[n]);
    var whole := Joined(words[..n]);
    NonSpacesConcat(whole + " ", words[n]);
    NonSpacesConcat(whole, " ");
    NonSpacesOfSpace();
    assert NonSpaces(whole) + NonSpaces(" ") == NonSpaces(whole);
  }

  lemma TracksFirst(words: seq<string>)
    requires words != []
    ensures Tracks(words, 1, words[0]) && Current(words, 1) == words[0] && Lost(words, 1) == 0
  {
    assert words[..1] == [words[0]];
  }

  // ---- Where a space is lost ---------------------------------------------------------

  /** A chunk is empty exactly after an empty word that met an empty chunk or a full one. */
  lemma EmptyChunkIff(words: seq<string>, n: nat)
    requires 1 <= n <= |words|
    ensures Current(words, n) == "" <==>
            words[n - 1] == "" && (Current(words, n - 1) == "" || |Current(words, n - 1)| >= CHUNK_TARGET)
  {
  }

  /** The double space after the n-th word meets a chunk that is full. */
  predicate BreaksAt(words: seq<string>, n: nat) {
    1 <= n < |words| - 1 && words[n] == "" && |Current(words, n)| >= CHUNK_TARGET
  }

  lemma {:induction false} LostMeansEmpty(words: seq<string>, n: nat)
    requires n <= |words|
    ensures Lost(words, n) > 0 <==> exists m :: 1 <= m < n && EmptyAfter(words, m)
  {
    hide EmptyAfter;
    if n > 0 {
      LostMeansEmpty(words, n - 1);
      if n > 1 { EmptyChunk(words, n - 1); }
    }
  }

  predicate EmptyAfter(words: seq<string>, m: nat) {
    m <= |words| && Current(words, m) == ""
  }

  lemma EmptyChunk(words: seq<string>, m: nat)
    requires m <= |words|
    ensures EmptyAfter(words, m) <==> Current(words, m) == ""
  {
  }

  lemma {:induction false} FirstEmptyChunk(words: seq<string>, m: nat) returns (n: nat)
    requires 1 <= m < |words| && words[0] != "" && Current(words, m) == ""
    ensures BreaksAt(words, n)
  {
    EmptyChunkIff(words, m);
    if m > 1 && Current(words, m - 1) == "" {
      n := FirstEmptyChunk(words, m - 1);
    } else {
      n := m - 1;
    }
  }

  /** Text is lost exactly when it starts with a space, or when a double space inside it meets a chunk
      of at least 48 characters. */
  lemma LosesIff(words: seq<string>)
    requires words != []
    ensures Lost(words, |words|) > 0 <==> (|words| > 1 && words[0] == "") || exists n: nat :: BreaksAt(words, n)
  {
    hide Current, Lost;
    LostMeansEmpty(words, |words|);
    TracksFirst(words);
    if |words| > 1 && words[0] == "" {
      assert EmptyAfter(words, 1);
    }
    if n: nat :| BreaksAt(words, n) {
      EmptyChunkIff(words, n + 1);
      assert EmptyAfter(words, n + 1);
    }
    if words[0] != "" && Lost(words, |words|) > 0 {
      var m :| 1 <= m < |words| && EmptyAfter(words, m);
      var n := FirstEmptyChunk(words, m);
      assert BreaksAt(words, n);
    }
  }

  lemma {:induction false} FirstWord(text: string)
    ensures |Words(text)| > 1 && Words(text)[0] == "" <==> text != "" && text[0] == ' '
    ensures |Words(text)| == 1 ==> Words(text)[0] == text
  {
    if text != "" {
      FirstWord(text[..|text| - 1]);
    }
  }

  /** Concatenating the chunks gives the text back exactly when it does not start with a space and no
      double space inside it meets a chunk of at least 48 characters; in any case only spaces are lost,
      one for each word that met an empty chunk, every chunk is short or a single word, and no two
      neighbouring chunks would have fitted into one. */
  method StreamText(text: string) returns (chunks: seq<string>)
    ensures Concat(chunks) == text <==> !(text != "" && text[0] == ' ') && !exists n: nat :: BreaksAt(Words(text), n)
    ensures |Concat(chunks)| + Lost(Words(text), |Words(text)|) == |text|
    ensures NonSpaces(Concat(chunks)) == NonSpaces(text)
    ensures forall chunk :: chunk in chunks ==> ChunkOk(Words(text), chunk)
    ensures Apart(chunks)
  {
    hide Words, Joined, NonSpaces, Tracks, Lost, ChunkOk, CurrentOk, BreaksAt, Current, Packed, Apart, Concat;
    PackedNothing(text);
    ConcatNothing();
    var words := Words(text);
    LosesIff(words);
    FirstWord(text);
    JoinedWords(text);
    TracksFirst(words);
    if |words| <= 1 {
      assert words[..1] == words;
      OneChunk(words, text);
      return [text];
    }
    chunks := [];
    var current := "";
    assert Current(words, 0) == "" by { CurrentOfNone(words); }
    assert CurrentOk(words, current) by { ShortIsOk(words, current); }
    for n := 0 to |words|
      invariant current == Current(words, n)
      invariant n == 0 ==> chunks == []
      invariant n > 0 ==> Tracks(words, n, Concat(chunks) + current)
      invariant forall chunk :: chunk in chunks ==> ChunkOk(words, chunk)
      invariant CurrentOk(words, current)
      invariant Packed(chunks, current)
    {
      var word := words[n];
      ghost var output := Concat(chunks) + current;
      WordIsOk(words, n);
      NextCurrent(words, n);
      if current == "" {
        if n > 0 {
          TracksLostSpace(words, n, output);
          assert output + word == Concat(chunks) + word;
        } else {
          assert Concat(chunks) + word == word;
        }
        PackedGrows(chunks, current, word);
        current := word;
      } else {
        TracksKeptSpace(words, n, output);
        var nextChunk := current + " " + word;
        if |nextChunk| > CHUNK_TARGET {
          SpacedIsOk(words, current);
          ConcatExtends(chunks, current + " ");
          assert output + " " + word == Concat(chunks) + (current + " ") + word;
          PackedFlush(chunks, current, word);
          chunks := chunks + [current + " "];
          current := word;
        } else {
          ShortIsOk(words, nextChunk);
          assert output + " " + word == Concat(chunks) + nextChunk;
          PackedGrows(chunks, current, nextChunk);
          current := nextChunk;
        }
      }
    }
    ghost var output := Concat(chunks) + current;
    PackedEnds(chunks, current);
    assert words[..|words|] == words;
    if current != "" {
      ConcatExtends(chunks, current);
      WholeIsOk(words, current);
      chunks := chunks + [current];
    }
    assert Concat(chunks) == output;
    Finished(words, output);
  }

  lemma ConcatNothing()
    ensures Concat([]) == ""
  {
  }

  /** No two neighbouring chunks would have fitted into one. */
  predicate Apart(chunks: seq<string>) {
    forall i :: 0 < i < |chunks| ==> |chunks[i - 1]| + |chunks[i]| > CHUNK_TARGET
  }

  /** Nor would the chunk under construction have fitted into the last finished one. */
  predicate Packed(chunks: seq<string>, current: string) {
    Apart(chunks) && (chunks != [] ==> |chunks[|chunks| - 1]| + |current| > CHUNK_TARGET)
  }

  lemma PackedNothing(text: string)
    ensures Packed([], "") && Apart([text])
  {
  }

  lemma PackedGrows(chunks: seq<string>, current: string, longer: string)
    requires Packed(chunks, current) && |current| <= |longer|
    ensures Packed(chunks, longer)
  {
  }

  lemma PackedFlush(chunks: seq<string>, current: string, word: string)
    requires Packed(chunks, current) && |current + " " + word| > CHUNK_TARGET
    ensures Packed(chunks + [current + " "], word)
  {
  }

  lemma PackedEnds(chunks: seq<string>, current: string)
    requires Packed(chunks, current)
    ensures Apart(chunks) && Apart(chunks + [current])
  {
  }

  lemma CurrentOfNone(words: seq<string>)
    ensures Current(words, 0) == ""
  {
  }

  lemma NextCurrent(words: seq<string>, n: nat)
    requires n < |words|
    ensures
      var before, word := Current(words, n), words[n];
      Current(words, n + 1) ==
      if before == "" then word else if |before + " " + word| > CHUNK_TARGET then word else before + " " + word
  {
  }

  lemma Finished(words: seq<string>, output: string)
    requires words != [] && Tracks(words, |words|, output)
    ensures |output| + Lost(words, |words|) == |Joined(words)|
    ensures output == Joined(words) <==> Lost(words, |words|) == 0
    ensures NonSpaces(output) == NonSpaces(Joined(words))
  {
    assert words[..|words|] == words;
  }

  lemma ConcatExtends(chunks: seq<string>, chunk: string)
    ensures Concat(chunks + [chunk]) == Concat(chunks) + chunk
  {
    assert (chunks + [chunk])[..|chunks|] == chunks;
  }

  lemma OneChunk(words: seq<string>, text: string)
    requires |words| == 1 && Joined(words) == text
    ensures Concat([text]) == text && ChunkOk(words, text) && Lost(words, 1) == 0
  {
    assert [text][..0] == [];
    assert text == words[0];
  }

  lemma ShortIsOk(words: seq<string>, current: string)
    requires |current| <= CHUNK_TARGET
    ensures CurrentOk(words, current)
  {
  }

  lemma WordIsOk(words: seq<string>, n: nat)
    requires n < |words|
    ensures CurrentOk(words, words[n])
  {
  }

  lemma SpacedIsOk(words: seq<string>, current: string)
    requires CurrentOk(words, current)
    ensures ChunkOk(words, current + " ")
  {
  }

  lemma WholeIsOk(words: seq<string>, current: string)
    requires CurrentOk(words, current)
    ensures ChunkOk(words, current)
  {
  }

  // ---- Texts that survive ------------------------------------------------------------

  /** No leading space and no two spaces in a row. */
  predicate SingleSpaced(text: string) {
    (text != "" ==> text[0] != ' ') && forall i :: 0 < i < |text| ==> !(text[i - 1] == ' ' && text[i] == ' ')
  }

  lemma {:induction false} SingleSpacedWords(text: string)
    requires SingleSpaced(text)
    ensures forall i :: 0 <= i < |Words(text)| - 1 ==> Words(text)[i] != ""
    ensures text != "" && text[|text| - 1] != ' ' ==> Words(text)[|Words(text)| - 1] != ""
  {
    if text != "" {
      var front := text[..|text| - 1];
      SingleSpacedWords(front);
    }
  }

  lemma {:induction false} NothingLost(words: seq<string>, n: nat)
    requires n <= |words| && forall i :: 0 <= i < |words| - 1 ==> words[i] != ""
    ensures Lost(words, n) == 0
    ensures 0 < n < |words| ==> Current(words, n) != ""
  {
    if n > 0 {
      NothingLost(words, n - 1);
    }
  }

  /** Single-spaced text is given back unchanged. */
  method StreamSingleSpaced(text: string) returns (chunks: seq<string>)
    requires SingleSpaced(text)
    ensures Concat(chunks) == text
  {
    SingleSpacedWords(text);
    NothingLost(Words(text), |Words(text)|);
    chunks := StreamText(text);
  }

  /** Text that starts with a space always comes back shorter. */
  lemma LeadingSpaceIsLost(text: string)
    requires text != "" && text[0] == ' '
    ensures Lost(Words(text), |Words(text)|) > 0
  {
    FirstWordEmpty(text);
    LostGrows(Words(text), 2, |Words(text)|);
    assert Current(Words(text), 1) == "";
  }

  lemma {:induction false} FirstWordEmpty(text: string)
    requires text != "" && text[0] == ' '
    ensures |Words(text)| >= 2 && Words(text)[0] == ""
  {
    var front := text[..|text| - 1];
    if front != "" {
      FirstWordEmpty(front);
    } else {
      assert Words(front) == [""];
    }
  }

  lemma {:induction false} LostGrows(words: seq<string>, m: nat, n: nat)
    requires m <= n <= |words|
    ensures Lost(words, m) <= Lost(words, n)
  {
    if m < n {
      LostGrows(words, m, n - 1);
    }
  }

  lemma {:induction false} WordsOfWord(w: string)
    requires ' ' !in w
    ensures Words(w) == [w]
  {
    if w != "" {
      WordsOfWord(w[..|w| - 1]);
      assert w[..|w| - 1] + [w[|w| - 1]] == w;
    }
  }

  lemma WordsExtend(text: string, c: char)
    ensures
      var words := Words(text);
      Words(text + [c]) == if c == ' ' then words + [""] else words[..|words| - 1] + [words[|words| - 1] + [c]]
  {
    assert (text + [c])[..|text|] == text;
  }

  lemma WordsOfDoubleSpace(w: string)
    requires ' ' !in w
    ensures Words(w + "  b") == [w, "", "b"]
  {
    hide Words;
    WordsOfWord(w);
    WordsExtend(w, ' ');
    assert Words(w + [' ']) == [w, ""];
    WordsExtend(w + [' '], ' ');
    assert Words(w + [' '] + [' ']) == [w, "", ""];
    WordsExtend(w + [' '] + [' '], 'b');
    assert [w, "", ""][..2] == [w, ""] && "" + ['b'] == "b";
    assert w + "  b" == w + [' '] + [' '] + ['b'];
  }

  /** It happens to any long word followed by two spaces: one of them is lost. */
  lemma DoubleSpaceIsLost(w: string)
    requires ' ' !in w && |w| >= CHUNK_TARGET
    ensures BreaksAt(Words(w + "  b"), 1)
    ensures Lost(Words(w + "  b"), |Words(w + "  b")|) > 0
  {
    hide Words, Lost, Current;
    WordsOfDoubleSpace(w);
    var words := [w, "", "b"];
    TracksFirst(words);
    LosesIff(words);
    assert BreaksAt(words, 1);
  }

  /** A chunk is no longer than the text before it. */
  lemma {:induction false} ChunkWithinText(words: seq<string>, n: nat)
    requires 1 <= n <= |words|
    ensures |Current(words, n)| <= |Joined(words[..n])|
  {
    TracksFirst(words);
    if n > 1 {
      ChunkWithinText(words, n - 1);
      JoinedExtends(words, n - 1);
    } else {
      assert words[..1] == [words[0]];
    }
  }

  lemma {:induction false} JoinedPrefix(words: seq<string>, n: nat)
    requires 1 <= n <= |words|
    ensures |Joined(words[..n])| + (|words| - n) <= |Joined(words)|
    decreases |words| - n
  {
    if n < |words| {
      JoinedPrefix(words, n + 1);
      JoinedExtends(words, n);
    } else {
      assert words[..n] == words;
    }
  }

  /** Text of fewer than 50 characters that does not start with a space comes back unchanged. */
  method StreamShort(text: string) returns (chunks: seq<string>)
    requires |text| < CHUNK_TARGET + 2 && (text != "" ==> text[0] != ' ')
    ensures Concat(chunks) == text
  {
    hide Current, Words;
    var words := Words(text);
    forall n: nat ensures !BreaksAt(words, n) {
      if 1 <= n < |words| - 1 {
        ChunkWithinText(words, n);
        JoinedPrefix(words, n);
        JoinedWords(text);
      }
    }
    chunks := StreamText(text);
  }
}
