/** apps/common/exceptions.py: `_camel_to_snake`, two regular-expression passes and a `lower`.

    Each pass is modelled as Python's `re.sub` runs it: leftmost match, greedy `+`, and the scan resumes
    after the match, so that no character takes part in two matches. */
module CamelCase {
  import opened Prelude

  /** `[a-z0-9]` */
  predicate LowerOrDigit(c: char) { IsLower(c) || IsDigit(c) }

  /** Number of leading characters in `[a-z]`, which a greedy `[a-z]+` consumes. */
  function LowerRun(s: string): (n: nat)
    ensures n <= |s|
    ensures forall i :: 0 <= i < n ==> IsLower(s[i])
    ensures n < |s| ==> !IsLower(s[n])
  {
    if s != "" && IsLower(s[0]) then 1 + LowerRun(s[1..]) else 0
  }

  /** `(.)([A-Z][a-z]+)` matches at the start of `s`; `.` is any character but a newline. */
  predicate WordStartsAfter(s: string) {
    |s| >= 3 && s[0] != '\n' && IsUpper(s[1]) && IsLower(s[2])
  }

  /** `re.sub(r"(.)([A-Z][a-z]+)", r"\1_\2", s)` */
  function FirstPass(s: string): string
    decreases |s|
  {
    if s == "" then ""
    else if WordStartsAfter(s) then
      var end := 2 + LowerRun(s[2..]);
      s[..1] + "_" + s[1..end] + FirstPass(s[end..])
    else s[..1] + FirstPass(s[1..])
  }

  /** `re.sub(r"([a-z0-9])([A-Z])", r"\1_\2", s)` */
  function SecondPass(s: string): string
    decreases |s|
  {
    if |s| < 2 then s
    else if LowerOrDigit(s[0]) && IsUpper(s[1]) then s[..1] + "_" + s[1..2] + SecondPass(s[2..])
    else s[..1] + SecondPass(s[1..])
  }

  function CamelToSnake(name: string): string {
    Lower(SecondPass(FirstPass(name)))
  }

  // ---- What the two passes compute together ----

  /** The local rule: an underscore belongs between the first two characters. It looks at three characters
      and at nothing the scan did before. */
  predicate Boundary(s: string) {
    && |s| >= 2
    && IsUpper(s[1])
    && (LowerOrDigit(s[0]) || (|s| >= 3 && s[0] != '\n' && IsLower(s[2])))
  }

  /** `s` with an underscore at every boundary and nothing else changed. */
  function Split(s: string): string {
    if s == "" then ""
    else s[..1] + (if Boundary(s) then "_" else "") + Split(s[1..])
  }

  /** The second pass may be read one character at a time: `[A-Z]` and `[a-z0-9]` are disjoint, so the upper-case
      letter a match consumes could not have opened another match. */
  lemma {:induction false} SecondPassStep(s: string)
    requires s != ""
    ensures SecondPass(s) ==
            s[..1] + (if |s| >= 2 && LowerOrDigit(s[0]) && IsUpper(s[1]) then "_" else "") + SecondPass(s[1..])
  {
  }

  /** An inserted underscore matches nothing, so the second pass goes on behind it. */
  lemma {:induction false} SecondPassMatched(head: string, tail: string)
    requires |head| == 1
    ensures SecondPass(head + ("_" + tail)) == head + "_" + SecondPass(tail)
  {
  }

  lemma {:induction false} FirstPassHead(s: string)
    requires s != ""
    ensures FirstPass(s) != "" && FirstPass(s)[0] == s[0]
  {
  }

  lemma {:induction false} PassesAfterMatch(s: string, word: string, rest: string)
    requires WordStartsAfter(s) && FirstPass(s) == s[..1] + "_" + word + FirstPass(rest) && s[1..] == word + rest
    requires SecondPass(word + FirstPass(rest)) == Split(word + rest)
    ensures SecondPass(FirstPass(s)) == Split(s)
  {
    var tail := word + FirstPass(rest);
    assert FirstPass(s) == s[..1] + ("_" + tail);
    SecondPassMatched(s[..1], tail);
  }

  lemma {:induction false} PassesWithoutMatch(s: string)
    requires s != "" && !WordStartsAfter(s)
    requires SecondPass(FirstPass(s[1..])) == Split(s[1..])
    ensures SecondPass(FirstPass(s)) == Split(s)
  {
    var out := FirstPass(s);
    assert out[..1] == s[..1] && out[1..] == FirstPass(s[1..]);
    SecondPassStep(out);
    if |s| >= 2 { FirstPassHead(s[1..]); }
  }

  /** For every name, the two non-overlapping passes insert an underscore exactly at the boundaries. */
  lemma {:induction false} TwoPassesSplit(s: string)
    ensures SecondPass(FirstPass(s)) == Split(s)
    decreases |s|, 0
  {
    if s == "" {
    } else if WordStartsAfter(s) {
      var end := 2 + LowerRun(s[2..]);
      var word, rest := s[1..end], s[end..];
      assert s[1..] == word + rest;
      assert forall i :: 1 <= i < |word| ==> word[i] == s[2..][i - 1];
      RunSplits(word, rest);
      PassesAfterMatch(s, word, rest);
    } else {
      TwoPassesSplit(s[1..]);
      PassesWithoutMatch(s);
    }
  }

  /** A word consumed by the first pass keeps its letters together; the boundary behind it, which the first pass
      cannot see because its last letter is used up, is the second pass's to find. */
  lemma {:induction false} RunSplits(word: string, rest: string)
    requires forall i :: 1 <= i < |word| ==> IsLower(word[i])
    requires |word| == 1 ==> IsLower(word[0])
    ensures SecondPass(word + FirstPass(rest)) == Split(word + rest)
    decreases |word| + |rest|, 1
  {
    if word == "" {
      assert word + FirstPass(rest) == FirstPass(rest);
      assert word + rest == rest;
      TwoPassesSplit(rest);
    } else {
      var out, all := word + FirstPass(rest), word + rest;
      SecondPassStep(out);
      assert out[1..] == word[1..] + FirstPass(rest);
      assert all[1..] == word[1..] + rest;
      RunSplits(word[1..], rest);
      if |word| == 1 && rest != "" { FirstPassHead(rest); }
    }
  }

  lemma {:induction false} CamelToSnakeIsSplit(name: string)
    ensures CamelToSnake(name) == Lower(Split(name))
  {
    TwoPassesSplit(name);
  }

  // ---- Only underscores are added ----

  /** `out` is `s` in lower case with underscores inserted. */
  predicate Padded(s: string, out: string) {
    if out == "" then s == ""
    else (out[0] == '_' && Padded(s, out[1..])) || (s != "" && out[0] == LowerChar(s[0]) && Padded(s[1..], out[1..]))
  }

  lemma {:induction false} SplitPads(s: string)
    ensures Padded(s, Lower(Split(s)))
  {
    if s == "" {
    } else {
      SplitPads(s[1..]);
      var tail := Lower(Split(s[1..]));
      if Boundary(s) {
        assert Lower(Split(s)) == [LowerChar(s[0])] + (['_'] + tail);
        assert Padded(s[1..], ['_'] + tail) by { assert (['_'] + tail)[1..] == tail; }
        assert ([LowerChar(s[0])] + (['_'] + tail))[1..] == ['_'] + tail;
      } else {
        assert Lower(Split(s)) == [LowerChar(s[0])] + tail;
        assert ([LowerChar(s[0])] + tail)[1..] == tail;
      }
    }
  }

  /** For every name: only underscores are inserted and only case is changed. */
  lemma {:induction false} CamelToSnakeOnlyPads(name: string)
    ensures Padded(name, CamelToSnake(name))
  {
    CamelToSnakeIsSplit(name);
    SplitPads(name);
  }

  // ---- CamelCase names ----

  /** `[A-Z][a-z]+` */
  predicate CamelWord(w: string) {
    |w| >= 2 && IsUpper(w[0]) && forall i :: 1 <= i < |w| ==> IsLower(w[i])
  }

  predicate CamelWords(words: seq<string>) {
    forall i :: 0 <= i < |words| ==> CamelWord(words[i])
  }

  function Concat(words: seq<string>): string {
    if words == [] then "" else words[0] + Concat(words[1..])
  }

  function LowerAll(words: seq<string>): (r: seq<string>)
    ensures |r| == |words|
  {
    if words == [] then [] else [Lower(words[0])] + LowerAll(words[1..])
  }

  /** Inside a word there is no boundary; behind it there is one, if a word follows. */
  lemma {:induction false} SplitWord(w: string, rest: string)
    requires w != ""
    requires |w| == 1 ==> IsLower(w[0])
    requires forall i :: 1 <= i < |w| ==> IsLower(w[i])
    requires rest != "" ==> IsUpper(rest[0])
    ensures Split(w + rest) == w + (if rest == "" then "" else "_") + Split(rest)
  {
    var s := w + rest;
    assert s[..1] == w[..1] && s[1..] == w[1..] + rest;
    if |w| == 1 {
      assert w[1..] + rest == rest;
      assert Boundary(s) <==> rest != "";
    } else {
      assert !Boundary(s);
      SplitWord(w[1..], rest);
      assert w == w[..1] + w[1..];
    }
  }

  lemma {:induction false} SplitJoinsWords(words: seq<string>)
    requires CamelWords(words)
    ensures Split(Concat(words)) == Join("_", words)
  {
    if words == [] {
    } else {
      var w, rest := words[0], Concat(words[1..]);
      SplitJoinsWords(words[1..]);
      SplitWord(w, rest);
      if |words| == 1 {
        assert w + "" == w;
      } else {
        assert rest == words[1] + Concat(words[1..][1..]);
      }
    }
  }

  lemma {:induction false} LowerJoin(words: seq<string>)
    ensures Lower(Join("_", words)) == Join("_", LowerAll(words))
  {
    if |words| <= 1 {
    } else {
      LowerJoin(words[1..]);
      assert LowerAll(words) == [Lower(words[0])] + LowerAll(words[1..]);
      assert Lower(words[0] + "_" + Join("_", words[1..])) == Lower(words[0]) + "_" + Lower(Join("_", words[1..]));
    }
  }

  /** For names made of words [A-Z][a-z]+ the result is the lower-cased words joined by underscores. */
  lemma CamelToSnakeJoinsWords(words: seq<string>)
    requires CamelWords(words)
    ensures CamelToSnake(Concat(words)) == Join("_", LowerAll(words))
  {
    CamelToSnakeIsSplit(Concat(words));
    SplitJoinsWords(words);
    LowerJoin(words);
  }

  // ---- The inverse ----

  /** Drop underscores, capitalising the letter behind each; `start` says that a word starts here. */
  function SnakeToCamel(s: string, start: bool): string {
    if s == "" then ""
    else if s[0] == '_' then SnakeToCamel(s[1..], true)
    else [if start then UpperChar(s[0]) else s[0]] + SnakeToCamel(s[1..], false)
  }

  lemma {:induction false} DecodeTail(w: string, rest: string)
    requires forall i :: 0 <= i < |w| ==> IsLower(w[i])
    ensures SnakeToCamel(w + rest, false) == w + SnakeToCamel(rest, false)
  {
    if w == "" {
      assert w + rest == rest;
    } else {
      assert (w + rest)[1..] == w[1..] + rest;
      DecodeTail(w[1..], rest);
      assert w == [w[0]] + w[1..];
    }
  }

  lemma {:induction false} DecodeWord(w: string, rest: string)
    requires CamelWord(w)
    ensures SnakeToCamel(Lower(w) + rest, true) == w + SnakeToCamel(rest, false)
  {
    assert (Lower(w) + rest)[1..] == w[1..] + rest;
    DecodeTail(w[1..], rest);
    assert w == [w[0]] + w[1..];
  }

  /** Round trip: a name made of words can be read back from its snake-case form. */
  lemma {:induction false} CamelToSnakeIsInvertible(words: seq<string>)
    requires CamelWords(words)
    ensures SnakeToCamel(CamelToSnake(Concat(words)), true) == Concat(words)
  {
    CamelToSnakeJoinsWords(words);
    if words == [] {
    } else {
      var w := words[0];
      assert LowerAll(words) == [Lower(w)] + LowerAll(words[1..]);
      CamelToSnakeIsInvertible(words[1..]);
      CamelToSnakeJoinsWords(words[1..]);
      var tail := Join("_", LowerAll(words[1..]));
      if |words| == 1 {
        DecodeWord(w, "");
        assert Lower(w) + "" == Lower(w);
      } else {
        var t := "_" + tail;
        assert Join("_", LowerAll(words)) == Lower(w) + t;
        DecodeWord(w, t);
        assert t[1..] == tail;
      }
    }
  }

  // ---- One character at a time ----

  /** For every name, the two passes together work like one scan that looks at three characters: an underscore goes
      before a capital letter behind a small letter or a digit, and before a capital letter followed by a small letter
      behind anything but a newline. */
  lemma PassesScan(s: string)
    requires |s| >= 2
    ensures SecondPass(FirstPass(s)) ==
            s[..1]
            + (if 'A' <= s[1] <= 'Z'
                  && ('a' <= s[0] <= 'z' || '0' <= s[0] <= '9' || (s[0] != '\n' && |s| > 2 && 'a' <= s[2] <= 'z'))
               then "_" else "")
            + SecondPass(FirstPass(s[1..]))
  {
    TwoPassesSplit(s);
    TwoPassesSplit(s[1..]);
  }

  lemma ShortNamesPass(a: char)
    ensures SecondPass(FirstPass("")) == "" && SecondPass(FirstPass([a])) == [a]
  {
    TwoPassesSplit([a]);
  }
}
