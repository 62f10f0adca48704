/** `msplit` of mstr.c: one pass over the string, filling an array of words that doubles as it fills. */
module MStr {
  import opened Machine
  import opened Doubling
  import opened Tokens

  const SPLIT_SIZE_INITIAL := 8
  const SPLIT_GROW_FACTOR := 2

  const DEFAULT_SEPARATORS := " \t\n\r"

  /** The size of the word array once it has held `n` words. */
  function Capacity(n: nat): (c: nat)
    ensures c >= n && c >= SPLIT_SIZE_INITIAL
    ensures c == SPLIT_SIZE_INITIAL || c <= 2 * (n - 1)
  {
    Grown(SPLIT_SIZE_INITIAL, n)
  }

  lemma CapacityStep(n: nat)
    ensures Capacity(n + 1) == if n + 1 > Capacity(n) then Capacity(n) * SPLIT_GROW_FACTOR else Capacity(n)
  {
    hide Grown;
    GrownStep(SPLIT_SIZE_INITIAL, n);
  }

  /** There is room for a final NULL after `n` words exactly when `n` is not 8, 16, 32 and so on. */
  lemma RoomForTerminator(n: nat)
    ensures n < Capacity(n) <==> !exists k: nat :: n == 8 * Power(k)
    ensures n < Capacity(n) <==> !Doubled(8, n)
    ensures n < 8 ==> n < Capacity(n)
  {
    hide Grown, Doubled;
    FullWhenDoubled(SPLIT_SIZE_INITIAL, n);
    DoubledIsPower(SPLIT_SIZE_INITIAL, n);
  }

  /** Eight words fill the first array, so that their NULL would go behind its end. */
  lemma EightWordsFillTheArray(a: char, x: char, seps: string)
    requires x in seps && a !in seps
    ensures var ws := seq(8, _ => [a, a]);
            Split(Join(ws, x), seps) == ws && Capacity(|ws|) == |ws| && Doubled(8, |ws|)
  {
    hide Split, Join;
    SplitUndoesJoin(seq(8, _ => [a, a]), x, seps);
  }

  /** Free of the four characters that separate words when the caller passes NULL. */
  predicate Solid(w: string) {
    ' ' !in w && '\t' !in w && '\n' !in w && '\r' !in w
  }

  /** For NULL, words joined by any of the four come back exactly when the last has two letters or more. */
  lemma DefaultSplitUndoesJoin(ws: seq<string>, x: char)
    requires x == ' ' || x == '\t' || x == '\n' || x == '\r'
    requires forall k :: 0 <= k < |ws| ==> ws[k] != "" && Solid(ws[k])
    ensures Split(Join(ws, x), DEFAULT_SEPARATORS) == ws <==> ws == [] || |ws[|ws| - 1]| >= 2
  {
    hide Split, Join;
    SplitUndoesJoin(ws, x, DEFAULT_SEPARATORS);
  }

  lemma JoinOfTwo(u: string, x: char, v: string)
    ensures Join([u, v], x) == u + [x] + v && Join([u], x) == u
  {
    assert [u, v][1..] == [v];
  }

  /** For NULL, a character between two words parts them exactly when it is one of the four. */
  lemma DefaultSeparators(u: string, x: char, v: string)
    requires Solid(u) && Solid(v) && u != "" && |v| >= 2
    ensures Split(u + [x] + v, DEFAULT_SEPARATORS) ==
            if x == ' ' || x == '\t' || x == '\n' || x == '\r' then [u, v] else [u + [x] + v]
  {
    hide Split, Join;
    JoinOfTwo(u, x, v);
    JoinOfTwo(u + [x] + v, ' ', []);
    if Solid([x]) {
      assert Solid(u + [x] + v);
      DefaultSplitUndoesJoin([u + [x] + v], ' ');
    } else {
      DefaultSplitUndoesJoin([u, v], x);
    }
  }

  /** The call of the library's own test. */
  lemma TestInput()
    ensures Split("--file=- --debug --tcp", " \t\n\r") == ["--file=-", "--debug", "--tcp"]
  {
    hide Split;
    var ws := ["--file=-", "--debug", "--tcp"];
    JoinOfTwo(ws[1], ' ', ws[2]);
    assert ws[1..] == [ws[1], ws[2]];
    assert Join(ws, ' ') == ws[0] + [' '] + Join([ws[1], ws[2]], ' ');
    assert Join(ws, ' ') == "--file=- --debug --tcp";
    DefaultSplitUndoesJoin(ws, ' ');
  }

  method IsSeparator(x: char, seps: string) returns (foundSep: bool)
    ensures foundSep <==> x in seps
  {
    foundSep := false;
    var j := 0;
    while j < |seps|
      invariant 0 <= j <= |seps|
      invariant foundSep <==> x in seps[..j]
    {
      if x == seps[j] {
        foundSep := true;
      }
      j := j + 1;
    }
    assert seps[..|seps|] == seps;
  }

  /** `realloc` of the word array. */
  method Grow(words: array<Option<string>>, newLength: nat) returns (bigger: array<Option<string>>)
    requires words.Length <= newLength
    ensures fresh(bigger) && bigger.Length == newLength
    ensures bigger[..words.Length] == words[..]
  {
    bigger := new Option<string>[newLength](_ => None);
    var i := 0;
    while i < words.Length
      invariant 0 <= i <= words.Length
      invariant forall k :: 0 <= k < i ==> bigger[k] == words[k]
    {
      bigger[i] := words[i];
      i := i + 1;
    }
  }

  /** The words under way and still to come when the scanner is at `i`; one under way began `wordLength` back. */
  ghost function ToCome(s: string, cs: seq<bool>, i: nat, inWord: bool, wordLength: nat): seq<string>
    requires |s| == |cs| && i <= |s| && (inWord ==> wordLength <= i)
  {
    var from := if inWord then i - wordLength else i;
    Runs(s[from..], cs[from..])
  }

  /** The classes by which the scanner goes: its own, until the last character takes that of the one before. */
  ghost function ScanClasses(s: string, seps: string): (cs: seq<bool>)
    ensures |cs| == |s|
    ensures forall i :: 0 <= i < |s| - 1 ==> cs[i] == (s[i] in seps)
    ensures |s| > 0 ==> cs[|s| - 1] == if |s| == 1 then true else cs[|s| - 2]
    ensures Runs(s, cs) == Split(s, seps)
  {
    LastLikePrevious(Classes(s, seps))
  }

  /** Between characters: the words out, the one under way and those to come make up the whole answer. */
  ghost predicate Scanned(s: string, seps: string, i: nat, inWord: bool, wordLength: nat, out: seq<string>) {
    var cs := ScanClasses(s, seps);
    && i <= |s|
    && (inWord ==> 0 < wordLength <= i < |s| && forall k :: i - wordLength <= k < i ==> !cs[k])
    && (0 < i < |s| ==> inWord == !cs[i - 1])
    && Split(s, seps) == out + ToCome(s, cs, i, inWord, wordLength)
  }

  lemma ScanStart(s: string, seps: string)
    ensures Scanned(s, seps, 0, false, 0, [])
  {
    var cs := ScanClasses(s, seps);
    assert s[0..] == s && cs[0..] == cs;
    assert [] + Split(s, seps) == Split(s, seps);
  }

  lemma WordEnds(s: string, cs: seq<bool>, i: nat, wordLength: nat)
    requires |s| == |cs| && i <= |s| && 0 < wordLength <= i
    requires forall k :: i - wordLength <= k < i ==> !cs[k]
    requires i < |s| ==> cs[i]
    ensures ToCome(s, cs, i, true, wordLength) == [s[i - wordLength..i]] + ToCome(s, cs, i, false, 0)
  {
    var from := i - wordLength;
    var t, ct := s[from..], cs[from..];
    if i < |s| {
      WordLengthIs(ct, wordLength);
    }
    assert WordLength(ct) == wordLength;
    assert t[..wordLength] == s[from..i] && t[wordLength..] == s[i..] && ct[wordLength..] == cs[i..];
  }

  lemma SeparatorSkipped(s: string, cs: seq<bool>, i: nat)
    requires |s| == |cs| && i < |s| && cs[i]
    ensures ToCome(s, cs, i, false, 0) == ToCome(s, cs, i + 1, false, 0)
  {
    assert s[i..][1..] == s[i + 1..] && cs[i..][1..] == cs[i + 1..];
  }

  lemma ScanLetter(s: string, seps: string, i: nat, inWord: bool, wordLength: nat, out: seq<string>)
    requires Scanned(s, seps, i, inWord, wordLength, out) && i < |s| - 1 && s[i] !in seps
    ensures Scanned(s, seps, i + 1, true, if inWord then wordLength + 1 else 1, out)
  {
    hide Split, Runs;
  }

  lemma ScanSeparator(s: string, seps: string, i: nat, inWord: bool, wordLength: nat, out: seq<string>)
    requires Scanned(s, seps, i, inWord, wordLength, out) && i < |s| - 1 && s[i] in seps
    ensures inWord ==> 0 < wordLength <= i
    ensures Scanned(s, seps, i + 1, false, wordLength, if inWord then out + [s[i - wordLength..i]] else out)
  {
    hide Split, Runs;
    var cs := ScanClasses(s, seps);
    SeparatorSkipped(s, cs, i);
    if inWord {
      WordEnds(s, cs, i, wordLength);
    }
  }

  /** The last character belongs to the word under way, if there is one, and is lost if there is none. */
  lemma ScanLast(s: string, seps: string, i: nat, inWord: bool, wordLength: nat, out: seq<string>)
    requires Scanned(s, seps, i, inWord, wordLength, out) && i == |s| - 1
    ensures inWord ==> 0 < wordLength <= i
    ensures Scanned(s, seps, i + 1, false, wordLength + 1, if inWord then out + [s[i - wordLength..i + 1]] else out)
  {
    var cs := ScanClasses(s, seps);
    hide Split, Runs;
    if inWord {
      WordEnds(s, cs, i + 1, wordLength + 1);
      assert ToCome(s, cs, i, true, wordLength) == ToCome(s, cs, i + 1, true, wordLength + 1);
    } else {
      SeparatorSkipped(s, cs, i);
    }
  }

  lemma ScanEnd(s: string, seps: string, wordLength: nat, out: seq<string>)
    requires Scanned(s, seps, |s|, false, wordLength, out)
    ensures out == Split(s, seps)
  {
    hide Split;
  }

  /**
   `separators` is None for NULL, and so is an empty slot. The words returned are those of `Split`;
   every word is stored below the length the array has at that moment, and the array ends with the
   least capacity that holds them. A NULL follows the words unless they fill the array; then the code
   writes it behind the end, which is what `overrun` reports.
   */
  method MSplit(input: string, separators: Option<string>)
    returns (words: array<Option<string>>, nWords: nat, overrun: bool)
    requires |input| < INT_MAX
    ensures var expected := Split(input, if separators == None then " \t\n\r" else separators.value);
            && nWords == |expected| <= words.Length == Capacity(|expected|)
            && (forall k :: 0 <= k < nWords ==> words[k] == Some(expected[k]))
            && (overrun <==> Doubled(8, |expected|))
            && (overrun ==> |expected| >= 8)
            && (overrun <==> nWords == words.Length)
            && (!overrun ==> words[nWords] == None)
  {
    hide Split, Scanned, Grown, Capacity, Doubled;
    var seps := if separators == None then DEFAULT_SEPARATORS else separators.value;
    var arrayLength := SPLIT_SIZE_INITIAL;
    words := new Option<string>[SPLIT_SIZE_INITIAL](_ => None);
    nWords := 0;
    ghost var out: seq<string> := [];
    ScanStart(input, seps);
    var inWord, wordLength := false, 0;
    var i := 0;
    while i < |input|
      invariant 0 <= i <= |input| + 1
      invariant i >= |input| ==> !inWord
      invariant nWords <= words.Length == arrayLength == Capacity(if inWord then nWords + 1 else nWords)
      invariant |out| == nWords && forall k :: 0 <= k < nWords ==> words[k] == Some(out[k])
      invariant Scanned(input, seps, if i <= |input| then i else |input|, inWord, wordLength, out)
      invariant fresh(words)
    {
      CapacityStep(nWords);
      var foundSep := IsSeparator(input[i], seps);
      if i == |input| - 1 {
        ScanLast(input, seps, i, inWord, wordLength, out);
        foundSep := true;
        wordLength := wordLength + 1;
        i := i + 1;
      } else if foundSep {
        ScanSeparator(input, seps, i, inWord, wordLength, out);
      } else {
        ScanLetter(input, seps, i, inWord, wordLength, out);
      }
      if foundSep {
        if inWord {
          inWord := false;
          words[nWords] := Some(input[i - wordLength..i]);
          nWords := nWords + 1;
          out := out + [input[i - wordLength..i]];
        }
      } else if !inWord {
        inWord := true;
        wordLength := 1;
        if nWords + 1 > arrayLength {
          arrayLength := arrayLength * SPLIT_GROW_FACTOR;
          words := Grow(words, arrayLength);
        }
      } else {
        wordLength := wordLength + 1;
      }
      i := i + 1;
    }
    ScanEnd(input, seps, wordLength, out);
    RoomForTerminator(nWords);
    overrun := nWords >= arrayLength;
    if !overrun {
      words[nWords] := None;
    }
  }
}
