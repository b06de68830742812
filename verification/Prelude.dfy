/** Vocabulary shared by the modules: options, and the few Python string methods the services use.
    Letters are ASCII; the README says what that leaves out. */
module Prelude {
  datatype Option<+T> = None | Some(value: T)

  predicate IsUpper(c: char) { 'A' <= c <= 'Z' }
  predicate IsLower(c: char) { 'a' <= c <= 'z' }
  predicate IsDigit(c: char) { '0' <= c <= '9' }

  function LowerChar(c: char): char {
    if IsUpper(c) then ((c as int) - ('A' as int) + ('a' as int)) as char else c
  }

  function UpperChar(c: char): char {
    if IsLower(c) then ((c as int) - ('a' as int) + ('A' as int)) as char else c
  }

  /** `str.lower` */
  function Lower(s: string): (r: string)
    ensures |r| == |s| && forall i :: 0 <= i < |s| ==> r[i] == LowerChar(s[i])
  {
    seq(|s|, i requires 0 <= i < |s| => LowerChar(s[i]))
  }

  /** `str.upper` */
  function Upper(s: string): (r: string)
    ensures |r| == |s| && forall i :: 0 <= i < |s| ==> r[i] == UpperChar(s[i])
  {
    seq(|s|, i requires 0 <= i < |s| => UpperChar(s[i]))
  }

  predicate IsSpace(c: char) {
    c == ' ' || '\t' <= c <= '\r' || '\U{1c}' <= c <= '\U{1f}'
  }

  function LeftStrip(s: string): string {
    if s != "" && IsSpace(s[0]) then LeftStrip(s[1..]) else s
  }

  function RightStrip(s: string): string {
    if s != "" && IsSpace(s[|s| - 1]) then RightStrip(s[..|s| - 1]) else s
  }

  /** `str.strip` */
  function Strip(s: string): string {
    RightStrip(LeftStrip(s))
  }

  /** A string `strip` has nothing to do on. */
  predicate Trimmed(s: string) {
    s != "" ==> !IsSpace(s[0]) && !IsSpace(s[|s| - 1])
  }

  lemma {:induction false} LeftStripTrims(s: string)
    ensures LeftStrip(s) != "" ==> !IsSpace(LeftStrip(s)[0])
    ensures s != "" && !IsSpace(s[|s| - 1]) ==> LeftStrip(s) != "" && LeftStrip(s)[|LeftStrip(s)| - 1] == s[|s| - 1]
  {
    if s == "" || !IsSpace(s[0]) {
    } else {
      LeftStripTrims(s[1..]);
    }
  }

  lemma {:induction false} RightStripTrims(s: string)
    ensures RightStrip(s) <= s
    ensures RightStrip(s) != "" ==> !IsSpace(RightStrip(s)[|RightStrip(s)| - 1])
  {
    if s == "" || !IsSpace(s[|s| - 1]) {
    } else {
      RightStripTrims(s[..|s| - 1]);
    }
  }

  lemma StripTrims(s: string)
    ensures Trimmed(Strip(s))
  {
    LeftStripTrims(s);
    RightStripTrims(LeftStrip(s));
  }

  lemma StripOfTrimmed(s: string)
    requires Trimmed(s)
    ensures Strip(s) == s
  {
  }

  lemma StripIsIdempotent(s: string)
    ensures Strip(Strip(s)) == Strip(s)
  {
    StripTrims(s);
    StripOfTrimmed(Strip(s));
  }

  lemma ClassesAre(c: char)
    ensures IsUpper(c) <==> c in "ABCDEFGHIJKLMNOPQRSTUVWXYZ"
    ensures IsLower(c) <==> c in "abcdefghijklmnopqrstuvwxyz"
    ensures IsDigit(c) <==> c in "0123456789"
  {
  }

  /** Case is that of ASCII, and the two conversions undo each other on letters. */
  lemma CaseOfLetters(i: nat)
    requires i < 26
    ensures LowerChar("ABCDEFGHIJKLMNOPQRSTUVWXYZ"[i]) == "abcdefghijklmnopqrstuvwxyz"[i]
    ensures UpperChar("abcdefghijklmnopqrstuvwxyz"[i]) == "ABCDEFGHIJKLMNOPQRSTUVWXYZ"[i]
  {
  }

  lemma SpacesAre(c: char)
    ensures IsSpace(c) <==> c in " \t\n\U{b}\U{c}\r\U{1c}\U{1d}\U{1e}\U{1f}"
  {
  }

  predicate OnlySpace(s: string) {
    forall i :: 0 <= i < |s| ==> IsSpace(s[i])
  }

  /** `strip` cuts the text between the outer white space. */
  lemma StripCuts(s: string)
    ensures exists head, tail :: s == head + Strip(s) + tail && OnlySpace(head) && OnlySpace(tail)
    ensures Strip(s) != "" ==> !IsSpace(Strip(s)[0]) && !IsSpace(Strip(s)[|Strip(s)| - 1])
  {
    var head := LeftStripCuts(s);
    var tail := RightStripCuts(LeftStrip(s));
    assert s == head + Strip(s) + tail;
    StripTrims(s);
  }

  lemma {:induction false} LeftStripCuts(s: string) returns (head: string)
    ensures s == head + LeftStrip(s) && OnlySpace(head)
  {
    if s == "" || !IsSpace(s[0]) {
      head := "";
    } else {
      head := LeftStripCuts(s[1..]);
      head := s[..1] + head;
      assert s == s[..1] + s[1..];
    }
  }

  lemma {:induction false} RightStripCuts(s: string) returns (tail: string)
    ensures s == RightStrip(s) + tail && OnlySpace(tail)
  {
    if s == "" || !IsSpace(s[|s| - 1]) {
      tail := "";
    } else {
      tail := RightStripCuts(s[..|s| - 1]);
      tail := tail + s[|s| - 1..];
      assert s == s[..|s| - 1] + s[|s| - 1..];
    }
  }

  /** `sep.join(parts)` */
  function Join(sep: string, parts: seq<string>): string {
    if |parts| == 0 then ""
    else if |parts| == 1 then parts[0]
    else parts[0] + sep + Join(sep, parts[1..])
  }
}
