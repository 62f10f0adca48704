/**
 Splitting a string into words. `Runs` cuts out the maximal stretches of characters not classed as
 separators; `Tokens` classes by membership; `Split` is what the C function returns, which classes
 the last character like the one before it.
 */
module Tokens {
  import opened Seqs

  /** `cs[i]` says that character `i` is a separator. */
  function Classes(s: string, seps: string): (cs: seq<bool>)
    ensures |cs| == |s| && forall i :: 0 <= i < |s| ==> cs[i] == (s[i] in seps)
  {
    seq(|s|, i requires 0 <= i < |s| => s[i] in seps)
  }

  /** The length of the word at the front, which is 0 before a separator or the end. */
  function WordLength(cs: seq<bool>): (n: nat)
    ensures n <= |cs| && (forall i :: 0 <= i < n ==> !cs[i]) && (n < |cs| ==> cs[n])
  {
    if cs == [] || cs[0] then 0 else 1 + WordLength(cs[1..])
  }

  function Runs(s: string, cs: seq<bool>): seq<string>
    requires |s| == |cs|
    decreases |s|
  {
    if s == [] then []
    else if cs[0] then Runs(s[1..], cs[1..])
    else var n := WordLength(cs); [s[..n]] + Runs(s[n..], cs[n..])
  }

  function Tokens(s: string, seps: string): seq<string> {
    Runs(s, Classes(s, seps))
  }

  /** The last character passes for whatever the one before it is; alone, it passes for a separator. */
  function LastLikePrevious(cs: seq<bool>): (ds: seq<bool>)
    ensures |ds| == |cs|
  {
    if cs == [] then []
    else cs[|cs| - 1 := if |cs| == 1 then true else cs[|cs| - 2]]
  }

  function Split(s: string, seps: string): seq<string> {
    Runs(s, LastLikePrevious(Classes(s, seps)))
  }

  // ---------- Tokens are what they should be ----------

  predicate Word(w: string, seps: string) {
    w != "" && forall i :: 0 <= i < |w| ==> w[i] !in seps
  }

  lemma {:induction false} RunsOfWord(w: string, cs: seq<bool>)
    requires |w| == |cs| && w != "" && forall i :: 0 <= i < |cs| ==> !cs[i]
    ensures Runs(w, cs) == [w]
  {
    assert WordLength(cs) == |w|;
    assert w[..|w|] == w && w[|w|..] == [] && cs[|w|..] == [];
  }

  lemma WordLengthIs(cs: seq<bool>, n: nat)
    requires n < |cs| && cs[n] && forall i :: 0 <= i < n ==> !cs[i]
    ensures WordLength(cs) == n
  {
  }

  /** A word in front, followed by a separator or nothing, is one more word. */
  lemma RunsAfterWord(w: string, cw: seq<bool>, t: string, ct: seq<bool>)
    requires |w| == |cw| > 0 && |t| == |ct|
    requires (forall i :: 0 <= i < |cw| ==> !cw[i]) && (ct != [] ==> ct[0])
    ensures Runs(w + t, cw + ct) == [w] + Runs(t, ct)
  {
    var n := |w|;
    assert (cw + ct)[0] == cw[0];
    if ct != [] {
      assert (cw + ct)[n] == ct[0];
      WordLengthIs(cw + ct, n);
    } else {
      assert cw + ct == cw && WordLength(cw) == n;
    }
    assert (w + t)[..n] == w && (w + t)[n..] == t && (cw + ct)[n..] == ct;
  }

  lemma RunsAfterSeparator(x: char, t: string, ct: seq<bool>)
    requires |t| == |ct|
    ensures Runs([x] + t, [true] + ct) == Runs(t, ct)
  {
    assert ([x] + t)[1..] == t && ([true] + ct)[1..] == ct;
  }

  /** One separator, or one whole word, in front. */
  lemma PrefixOfRuns(w: string, cw: seq<bool>, t: string, ct: seq<bool>)
    requires |w| == |cw| > 0 && |t| == |ct|
    requires if cw[0] then |cw| == 1 else (forall i :: 0 <= i < |cw| ==> !cw[i]) && (ct != [] ==> ct[0])
    ensures Runs(w + t, cw + ct) == (if cw[0] then [] else [w]) + Runs(t, ct)
  {
    if cw[0] {
      assert w == [w[0]] && cw == [true];
      RunsAfterSeparator(w[0], t, ct);
    } else {
      RunsAfterWord(w, cw, t, ct);
    }
  }

  /** Cutting just before a separator cuts between words. */
  lemma {:induction false} RunsBeforeSeparator(a: string, ca: seq<bool>, r: string, cr: seq<bool>)
    requires |a| == |ca| && |r| == |cr| && (cr != [] ==> cr[0])
    ensures Runs(a + r, ca + cr) == Runs(a, ca) + Runs(r, cr)
    decreases |a|
  {
    if a == [] {
      assert a + r == r && ca + cr == cr;
    } else {
      var n := if ca[0] then 1 else WordLength(ca);
      var w, t, cw, ct := a[..n], a[n..], ca[..n], ca[n..];
      RunsBeforeSeparator(t, ct, r, cr);
      PrefixOfRuns(w, cw, t, ct);
      PrefixOfRuns(w, cw, t + r, ct + cr);
      SplitFirst(a, n, r);
      SplitFirst(ca, n, cr);
      Associative(if cw[0] then [] else [w], Runs(t, ct), Runs(r, cr));
    }
    hide Runs, WordLength;
  }

  lemma RunsAtSeparator(a: string, ca: seq<bool>, x: char, b: string, cb: seq<bool>)
    requires |a| == |ca| && |b| == |cb|
    ensures Runs(a + ([x] + b), ca + ([true] + cb)) == Runs(a, ca) + Runs(b, cb)
  {
    RunsBeforeSeparator(a, ca, [x] + b, [true] + cb);
    RunsAfterSeparator(x, b, cb);
  }

  lemma TokensAtSeparator(a: string, x: char, b: string, seps: string)
    requires x in seps
    ensures Tokens(a + [x] + b, seps) == Tokens(a, seps) + Tokens(b, seps)
  {
    RunsAtSeparator(a, Classes(a, seps), x, b, Classes(b, seps));
    assert a + [x] + b == a + ([x] + b);
    assert Classes(a + [x] + b, seps) == Classes(a, seps) + ([true] + Classes(b, seps));
  }

  predicate Words(ws: seq<string>, seps: string) {
    forall k :: 0 <= k < |ws| ==> Word(ws[k], seps)
  }

  /** Every token is a word: not empty, and free of separators. */
  lemma {:induction false} TokensAreWords(s: string, seps: string)
    ensures Words(Tokens(s, seps), seps)
    decreases |s|
  {
    var cs := Classes(s, seps);
    if s != [] {
      var n := if cs[0] then 1 else WordLength(cs);
      assert Classes(s[n..], seps) == cs[n..];
      TokensAreWords(s[n..], seps);
      if !cs[0] {
        assert forall i :: 0 <= i < n ==> !cs[i];
        assert Word(s[..n], seps) by {
          forall i | 0 <= i < n
            ensures s[..n][i] !in seps
          {
            assert !cs[i];
          }
        }
        assert Tokens(s, seps) == [s[..n]] + Tokens(s[n..], seps);
      }
    }
  }

  function Letters(s: string, seps: string): string {
    if s == [] then []
    else (if s[0] in seps then [] else [s[0]]) + Letters(s[1..], seps)
  }

  function Concat(ws: seq<string>): string {
    if ws == [] then [] else ws[0] + Concat(ws[1..])
  }

  lemma {:induction false} LettersOfWord(w: string, t: string, seps: string)
    requires forall i :: 0 <= i < |w| ==> w[i] !in seps
    ensures Letters(w + t, seps) == w + Letters(t, seps)
  {
    if w == [] {
      assert w + t == t;
    } else {
      assert (w + t)[1..] == w[1..] + t;
      LettersOfWord(w[1..], t, seps);
    }
  }

  /** Nothing is lost: the tokens hold exactly the characters that are not separators, in order. */
  lemma {:induction false} TokensKeepLetters(s: string, seps: string)
    ensures Concat(Tokens(s, seps)) == Letters(s, seps)
    decreases |s|
  {
    var cs := Classes(s, seps);
    if s != [] {
      var n := if cs[0] then 1 else WordLength(cs);
      assert Classes(s[n..], seps) == cs[n..];
      TokensKeepLetters(s[n..], seps);
      if !cs[0] {
        assert s == s[..n] + s[n..];
        LettersOfWord(s[..n], s[n..], seps);
        assert Tokens(s, seps)[1..] == Tokens(s[n..], seps);
      }
    }
  }

  // ---------- When the code's answer is the right one ----------

  /** The last two characters are of one class, or what there is of them is no word. */
  predicate EndsEvenly(s: string, seps: string) {
    var n := |s|;
    if n == 0 then true
    else if n == 1 then s[0] in seps
    else s[n - 1] in seps <==> s[n - 2] in seps
  }

  /** Changing the class of the last character always changes the words. */
  lemma {:induction false} LastClassMatters(s: string, cs: seq<bool>)
    requires |s| == |cs| && s != []
    ensures Runs(s, cs[|cs| - 1 := true]) != Runs(s, cs[|cs| - 1 := false])
    decreases |s|
  {
    var n := |s|;
    var yes, no := cs[n - 1 := true], cs[n - 1 := false];
    if n == 1 {
      RunsOfWord(s, no);
      assert yes[1..] == [];
      assert Runs(s, yes) == Runs(s[1..], yes[1..]) == [];
    } else if cs[0] {
      assert yes[1..] == cs[1..][n - 2 := true] && no[1..] == cs[1..][n - 2 := false];
      LastClassMatters(s[1..], cs[1..]);
    } else {
      var m := WordLength(yes);
      assert yes[n - 1] && forall i :: 0 <= i < n - 1 ==> no[i] == yes[i];
      if m == n - 1 {
        RunsOfWord(s, no);
        assert Runs(s, yes)[0] == s[..n - 1];
      } else {
        WordLengthIs(no, m);
        assert yes[m..] == cs[m..][n - m - 1 := true] && no[m..] == cs[m..][n - m - 1 := false];
        LastClassMatters(s[m..], cs[m..]);
        assert Runs(s, yes)[1..] == Runs(s[m..], yes[m..]);
        assert Runs(s, no)[1..] == Runs(s[m..], no[m..]);
      }
    }
  }

  /** The code agrees with the tokenizer exactly on the strings that end evenly. */
  lemma SplitIsTokens(s: string, seps: string)
    ensures Split(s, seps) == Tokens(s, seps) <==> EndsEvenly(s, seps)
  {
    var cs := Classes(s, seps);
    if s != [] {
      var n := |s|;
      assert cs[n - 1 := true] == cs || cs[n - 1 := false] == cs;
      LastClassMatters(s, cs);
      assert LastLikePrevious(cs) == cs <==> EndsEvenly(s, seps);
    }
  }

  /** A final word of one character is dropped. */
  lemma OneLetterIsDropped(a: string, x: char, y: char, seps: string)
    requires x in seps && y !in seps
    ensures Split(a + [x, y], seps) == Tokens(a, seps)
    ensures Tokens(a + [x, y], seps) == Tokens(a, seps) + [[y]]
  {
    var ca := Classes(a, seps);
    assert a + [x, y] == a + ([x] + [y]);
    assert Classes(a + [x, y], seps) == ca + ([true] + [false]);
    assert LastLikePrevious(Classes(a + [x, y], seps)) == ca + ([true] + [true]);
    RunsAtSeparator(a, ca, x, [y], [false]);
    RunsAtSeparator(a, ca, x, [y], [true]);
    RunsOfWord([y], [false]);
    RunsOfSeparators([y], [true]);
  }

  lemma {:induction false} RunsOfSeparators(s: string, cs: seq<bool>)
    requires |s| == |cs| && forall i :: 0 <= i < |cs| ==> cs[i]
    ensures Runs(s, cs) == []
    decreases |s|
  {
    if s != [] {
      RunsOfSeparators(s[1..], cs[1..]);
    }
  }

  /** A single separator at the end is glued to the last word. */
  lemma TrailingSeparatorIsKept(w: string, x: char, seps: string)
    requires Word(w, seps) && x in seps
    ensures Split(w + [x], seps) == [w + [x]]
    ensures Tokens(w + [x], seps) == [w]
  {
    var cw := Classes(w, seps);
    assert Classes(w + [x], seps) == cw + [true];
    var ds := LastLikePrevious(Classes(w + [x], seps));
    assert forall i :: 0 <= i < |ds| ==> !ds[i];
    RunsOfWord(w + [x], ds);
    RunsAtSeparator(w, cw, x, [], []);
    assert w + ([x] + []) == w + [x] && cw + ([true] + []) == cw + [true];
    RunsOfWord(w, cw);
  }

  // ---------- Splitting undoes joining ----------

  function Join(ws: seq<string>, x: char): string {
    if ws == [] then []
    else if |ws| == 1 then ws[0]
    else ws[0] + [x] + Join(ws[1..], x)
  }

  lemma {:induction false} TokensOfJoin(ws: seq<string>, x: char, seps: string)
    requires x in seps && Words(ws, seps)
    ensures Tokens(Join(ws, x), seps) == ws
    decreases |ws|
  {
    if |ws| == 1 {
      RunsOfWord(ws[0], Classes(ws[0], seps));
    } else if |ws| > 1 {
      TokensOfJoin(ws[1..], x, seps);
      TokensAtSeparator(ws[0], x, Join(ws[1..], x), seps);
      RunsOfWord(ws[0], Classes(ws[0], seps));
      assert [ws[0]] + ws[1..] == ws;
    }
  }

  lemma {:induction false} JoinEnds(ws: seq<string>, x: char, seps: string)
    requires x in seps && ws != [] && Words(ws, seps)
    ensures EndsEvenly(Join(ws, x), seps) <==> |ws[|ws| - 1]| >= 2
    ensures Join(ws, x) != []
    decreases |ws|
  {
    if |ws| > 1 {
      JoinEnds(ws[1..], x, seps);
      var rest := Join(ws[1..], x);
      var s := Join(ws, x);
      assert s[|s| - 1] == rest[|rest| - 1];
      assert |rest| == 1 ==> s[|s| - 2] == x;
      assert |rest| >= 2 ==> s[|s| - 2] == rest[|rest| - 2];
      if |rest| == 1 {
        SingleLetterJoin(ws[1..], x, seps);
      }
    }
  }

  lemma SingleLetterJoin(ws: seq<string>, x: char, seps: string)
    requires ws != [] && |Join(ws, x)| == 1 && Words(ws, seps)
    ensures |ws| == 1
  {
  }

  /** Words joined by a separator come back from the code exactly when the last has two letters or more. */
  lemma SplitUndoesJoin(ws: seq<string>, x: char, seps: string)
    requires x in seps && Words(ws, seps)
    ensures Split(Join(ws, x), seps) == ws <==> ws == [] || |ws[|ws| - 1]| >= 2
  {
    TokensOfJoin(ws, x, seps);
    SplitIsTokens(Join(ws, x), seps);
    if ws != [] {
      JoinEnds(ws, x, seps);
    }
  }
}
