/** services/auth/social_auth_service.py: `_make_username` and the `_unique_username` search. */
module Usernames {
  import opened Prelude

  // ---- Decimal printing, as `f"{counter}"` does it ----

  function Digit(d: nat): char
    requires d < 10
  {
    "0123456789"[d]
  }

  function Decimal(n: nat): string {
    if n < 10 then [Digit(n)] else Decimal(n / 10) + [Digit(n % 10)]
  }

  /** Reads the digits back. */
  function ParseDecimal(s: string): nat {
    if s == "" then 0
    else 10 * ParseDecimal(s[..|s| - 1]) + (if IsDigit(s[|s| - 1]) then s[|s| - 1] as nat - '0' as nat else 0)
  }

  lemma {:induction false} ParseOfDecimal(n: nat)
    ensures ParseDecimal(Decimal(n)) == n
  {
    if n < 10 {
    } else {
      ParseOfDecimal(n / 10);
      assert Decimal(n)[..|Decimal(n)| - 1] == Decimal(n / 10);
    }
  }

  lemma {:induction false} DecimalLengthGrows(m: nat, n: nat)
    requires m <= n
    ensures 1 <= |Decimal(m)| <= |Decimal(n)|
  {
    if n < 10 {
    } else {
      DecimalLengthGrows(m / 10, n / 10);
    }
  }

  // ---- The candidate names ----

  /** base, base_1, base_2, ... */
  function Candidate(base: string, k: nat): string {
    if k == 0 then base else base + "_" + Decimal(k)
  }

  lemma CandidateIsInjective(base: string, j: nat, k: nat)
    requires Candidate(base, j) == Candidate(base, k)
    ensures j == k
  {
    if j > 0 && k > 0 {
      assert Candidate(base, j)[|base| + 1..] == Decimal(j);
      assert Candidate(base, k)[|base| + 1..] == Decimal(k);
      ParseOfDecimal(j);
      ParseOfDecimal(k);
    }
  }

  /** The first n candidates. */
  function Candidates(base: string, n: nat): set<string> {
    if n == 0 then {} else Candidates(base, n - 1) + {Candidate(base, n - 1)}
  }

  lemma {:induction false} CandidatesAreDistinct(base: string, n: nat)
    ensures |Candidates(base, n)| == n
    ensures forall s :: s in Candidates(base, n) ==> exists k: nat :: k < n && s == Candidate(base, k)
  {
    if n == 0 {
    } else {
      CandidatesAreDistinct(base, n - 1);
      if Candidate(base, n - 1) in Candidates(base, n - 1) {
        var k: nat :| k < n - 1 && Candidate(base, n - 1) == Candidate(base, k);
        CandidateIsInjective(base, n - 1, k);
      }
    }
  }

  /** Pigeonhole: n candidates can be taken only by n different users. */
  lemma TakenCandidatesAreFew(base: string, n: nat, users: set<string>)
    requires forall k: nat :: k < n ==> Candidate(base, k) in users
    ensures n <= |users|
  {
    CandidatesAreDistinct(base, n);
    var taken := Candidates(base, n);
    assert taken <= users;
    SubsetIsNoLarger(taken, users);
  }

  lemma SubsetIsNoLarger<T>(a: set<T>, b: set<T>)
    requires a <= b
    ensures |a| <= |b|
  {
    assert b == a + (b - a);
  }

  /** k is the position of the first free candidate. */
  predicate FirstFree(base: string, users: set<string>, k: nat) {
    && Candidate(base, k) !in users
    && forall j: nat :: j < k ==> Candidate(base, j) in users
  }

  function SearchFrom(base: string, users: set<string>, tried: nat): (k: nat)
    requires forall j: nat :: j < tried ==> Candidate(base, j) in users
    ensures FirstFree(base, users, k)
    decreases |users| + 1 - tried
  {
    TakenCandidatesAreFew(base, tried, users);
    if Candidate(base, tried) in users then
      TakenCandidatesAreFew(base, tried + 1, users);
      SearchFrom(base, users, tried + 1)
    else tried
  }

  /** The first free name, as a function of the names in use. */
  function FreeName(base: string, users: set<string>): string {
    Candidate(base, SearchFrom(base, users, 0))
  }

  /** The specification leaves the search no choice. */
  lemma FirstFreeIsUnique(base: string, users: set<string>, j: nat, k: nat)
    requires FirstFree(base, users, j) && FirstFree(base, users, k)
    ensures j == k
  {
    assert !(j < k) && !(k < j);
  }

  /** The search loop. It terminates for every finite set of users, and its counter never exceeds their number. */
  method UniqueUsername(base: string, users: set<string>) returns (username: string)
    ensures exists k: nat :: k <= |users| && FirstFree(base, users, k) && username == Candidate(base, k)
    ensures username == FreeName(base, users)
  {
    username := base;
    var counter: nat := 1;
    while username in users
      invariant counter >= 1
      invariant username == Candidate(base, counter - 1)
      invariant forall k: nat :: k < counter - 1 ==> Candidate(base, k) in users
      decreases |users| + 1 - counter
    {
      TakenCandidatesAreFew(base, counter, users);
      username := base + "_" + Decimal(counter);
      counter := counter + 1;
    }
    TakenCandidatesAreFew(base, counter - 1, users);
    FirstFreeIsUnique(base, users, counter - 1, SearchFrom(base, users, 0));
  }

  // ---- _make_username ----

  /** What the search's length bound needs of a base: 1 to 30 word characters, the first not an underscore. */
  predicate CleanBase(word: char -> bool, base: string) {
    && 1 <= |base| <= 30
    && base[0] != '_'
    && forall i :: 0 <= i < |base| ==> word(base[i])
  }

  /** `re.sub(r"[^\w]", "_", s)`; `word` says which characters are in `\w`. */
  function ReplaceNonWord(word: char -> bool, s: string): (r: string)
    ensures |r| == |s| && forall i :: 0 <= i < |s| ==> r[i] == if word(s[i]) then s[i] else '_'
  {
    seq(|s|, i requires 0 <= i < |s| => if word(s[i]) then s[i] else '_')
  }

  function StripUnderscores(s: string): string
    decreases |s|
  {
    if s == "" then ""
    else if s[0] == '_' then StripUnderscores(s[1..])
    else if s[|s| - 1] == '_' then StripUnderscores(s[..|s| - 1])
    else s
  }

  function MakeUsername(word: char -> bool, provider: string, base: string): string {
    var stripped := StripUnderscores(ReplaceNonWord(word, base));
    var clean := if |stripped| <= 30 then stripped else stripped[..30];
    if clean != "" then clean else provider + "_user"
  }

  lemma {:induction false} StripUnderscoresKeepsWords(word: char -> bool, s: string)
    requires forall i :: 0 <= i < |s| ==> word(s[i])
    ensures var r := StripUnderscores(s);
      && (r != "" ==> r[0] != '_')
      && (forall i :: 0 <= i < |r| ==> word(r[i]))
      && (r == "" ==> forall i :: 0 <= i < |s| ==> s[i] == '_')
    decreases |s|
  {
    if s == "" || (s[0] != '_' && s[|s| - 1] != '_') {
    } else if s[0] == '_' {
      StripUnderscoresKeepsWords(word, s[1..]);
    } else {
      StripUnderscoresKeepsWords(word, s[..|s| - 1]);
    }
  }

  /** Both providers' names are acceptable fallbacks, so every base the service derives is clean; an input without
      a word character other than the underscore gives the fallback. */
  lemma MakeUsernameIsClean(word: char -> bool, provider: string, base: string)
    requires provider == "google" || provider == "github"
    requires word('_') && forall c :: IsLower(c) ==> word(c)
    ensures CleanBase(word, MakeUsername(word, provider, base))
    ensures (forall i :: 0 <= i < |base| ==> !word(base[i]) || base[i] == '_') ==>
              MakeUsername(word, provider, base) == provider + "_user"
  {
    var replaced := ReplaceNonWord(word, base);
    StripUnderscoresKeepsWords(word, replaced);
    if forall i :: 0 <= i < |base| ==> !word(base[i]) || base[i] == '_' {
      StripOfUnderscores(replaced);
    }
  }

  lemma {:induction false} StripOfUnderscores(s: string)
    requires forall i :: 0 <= i < |s| ==> s[i] == '_'
    ensures StripUnderscores(s) == ""
    decreases |s|
  {
    if s == "" {
    } else {
      StripOfUnderscores(s[1..]);
    }
  }

  predicate OnlyUnderscores(s: string) {
    forall i :: 0 <= i < |s| ==> s[i] == '_'
  }

  predicate NoOuterUnderscore(s: string) {
    s != "" ==> s[0] != '_' && s[|s| - 1] != '_'
  }

  /** `strip("_")` cuts the text between its outer underscores. */
  lemma {:induction false} StripUnderscoresCuts(s: string) returns (head: string, tail: string)
    ensures s == head + StripUnderscores(s) + tail && OnlyUnderscores(head) && OnlyUnderscores(tail)
    ensures NoOuterUnderscore(StripUnderscores(s))
    decreases |s|
  {
    if s == "" || (s[0] != '_' && s[|s| - 1] != '_') {
      head, tail := "", "";
      assert head + s + tail == s;
    } else if s[0] == '_' {
      head, tail := StripUnderscoresCuts(s[1..]);
      head := s[..1] + head;
      assert s == s[..1] + s[1..];
    } else {
      head, tail := StripUnderscoresCuts(s[..|s| - 1]);
      tail := tail + s[|s| - 1..];
      assert s == s[..|s| - 1] + s[|s| - 1..];
    }
  }

  /** The base is the first 30 characters of what lies between the outer underscores, once every character outside
      `\w` is an underscore; if nothing does, it is the fallback. */
  lemma MakeUsernameExactly(word: char -> bool, provider: string, base: string)
    ensures exists head, middle, tail ::
      && ReplaceNonWord(word, base) == head + middle + tail
      && OnlyUnderscores(head) && OnlyUnderscores(tail) && NoOuterUnderscore(middle)
      && MakeUsername(word, provider, base)
         == if middle == "" then provider + "_user" else if |middle| <= 30 then middle else middle[..30]
  {
    var head, tail := StripUnderscoresCuts(ReplaceNonWord(word, base));
    var middle := StripUnderscores(ReplaceNonWord(word, base));
    assert ReplaceNonWord(word, base) == head + middle + tail;
  }

  /** A name that is already clean is kept. */
  lemma MakeUsernameKeepsCleanNames(word: char -> bool, provider: string, base: string)
    requires CleanBase(word, base) && base[|base| - 1] != '_'
    ensures MakeUsername(word, provider, base) == base
  {
    assert ReplaceNonWord(word, base) == base;
  }

  /** With a derived base, the name found has at most 31 characters plus the digits of the number of users. */
  lemma FoundNameIsShort(word: char -> bool, provider: string, input: string, users: set<string>, k: nat)
    requires provider == "google" || provider == "github"
    requires word('_') && forall c :: IsLower(c) ==> word(c)
    requires FirstFree(MakeUsername(word, provider, input), users, k)
    ensures k <= |users|
    ensures |Candidate(MakeUsername(word, provider, input), k)| <= 31 + |Decimal(|users|)|
  {
    MakeUsernameIsClean(word, provider, input);
    TakenCandidatesAreFew(MakeUsername(word, provider, input), k, users);
    DecimalLengthGrows(k, |users|);
  }
}
