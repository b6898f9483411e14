/**
 Default terminal names: "<folder>-N" with the least N that neither the store nor tmux
 uses.  Names are byte strings, as Go's strings are.
 */
module TerminalNames {
  import opened Utf8

  type Name = seq<byte>

  const MAX_LENGTH := 64
  const MAX_ATTEMPTS := 1000
  const DASH: byte := 0x2D

  // ---------- Sanitizing ----------

  /** The length of the white-space character (in Unicode's sense) at the head of `s`, or 0. */
  function SpaceLen(s: Name): (n: nat)
    ensures n <= |s| && n <= 3
  {
    if |s| >= 1 && (0x09 <= s[0] <= 0x0D || s[0] == 0x20) then 1
    else if |s| >= 2 && s[0] == 0xC2 && (s[1] == 0x85 || s[1] == 0xA0) then 2
    else if |s| >= 3 && IsWideSpace(s[0], s[1], s[2]) then 3
    else 0
  }

  predicate IsWideSpace(a: byte, b: byte, c: byte) {
    || (a == 0xE1 && b == 0x9A && c == 0x80)
    || (a == 0xE2 && b == 0x80 && (0x80 <= c <= 0x8A || c == 0xA8 || c == 0xA9 || c == 0xAF))
    || (a == 0xE2 && b == 0x81 && c == 0x9F)
    || (a == 0xE3 && b == 0x80 && c == 0x80)
  }

  /** The length of the white-space character that ends `s`, or 0. */
  function SpaceTail(s: Name): (n: nat)
    ensures n <= |s| && n <= 3
  {
    if |s| >= 1 && SpaceLen(s[|s| - 1..]) == 1 then 1
    else if |s| >= 2 && SpaceLen(s[|s| - 2..]) == 2 then 2
    else if |s| >= 3 && SpaceLen(s[|s| - 3..]) == 3 then 3
    else 0
  }

  function TrimLeft(s: Name): (t: Name)
    ensures |t| <= |s|
    decreases |s|
  {
    if SpaceLen(s) == 0 then s else TrimLeft(s[SpaceLen(s)..])
  }

  function TrimRight(s: Name): (t: Name)
    ensures |t| <= |s|
    decreases |s|
  {
    if SpaceTail(s) == 0 then s else TrimRight(s[..|s| - SpaceTail(s)])
  }

  /** Dots, colons and spaces become dashes. */
  function Dashed(s: Name): (t: Name)
    ensures |t| == |s|
  {
    seq(|s|, i requires 0 <= i < |s| => if s[i] == 0x2E || s[i] == 0x3A || s[i] == 0x20 then DASH else s[i])
  }

  function Cap(s: Name): Name { if |s| > MAX_LENGTH then s[..MAX_LENGTH] else s }

  function SanitizeSessionName(s: Name): (t: Name)
    ensures |t| <= MAX_LENGTH
  {
    Cap(Dashed(TrimRight(TrimLeft(s))))
  }

  /** The code points with Unicode's White_Space property. */
  predicate WhiteSpace(c: nat) {
    || 0x09 <= c <= 0x0D || c == 0x20 || c == 0x85 || c == 0xA0 || c == 0x1680 || 0x2000 <= c <= 0x200A
    || c == 0x2028 || c == 0x2029 || c == 0x202F || c == 0x205F || c == 0x3000
  }

  /** `SpaceLen` knows the UTF-8 forms of exactly these code points. */
  lemma {:induction false} SpaceLenIff(s: Name, n: nat)
    requires n > 0
    ensures SpaceLen(s) == n <==> exists c: nat :: WhiteSpace(c) && Begins(s, n, c)
  {
    hide SpaceLen, CharLen, WhiteSpace, Encoding, Decoding;
    if SpaceLen(s) == n {
      SpaceIsWhite(s);
      CharIsEncoding(s);
      assert Begins(s, n, Decoding(s));
    }
    if c: nat :| WhiteSpace(c) && Begins(s, n, c) {
      WhiteIsSpace(c, s[n..]);
      assert s == Encoding(c) + s[n..];
    }
  }

  lemma {:induction false} SpaceIsWhite(s: Name)
    requires SpaceLen(s) > 0
    ensures CharLen(s) == SpaceLen(s) && Decoding(s) >= 0 && WhiteSpace(Decoding(s))
  {
  }

  lemma {:induction false} WhiteIsSpace(c: nat, t: Name)
    requires WhiteSpace(c)
    ensures Scalar(c) && SpaceLen(Encoding(c) + t) == |Encoding(c)|
  {
  }

  /** `SpaceTail` finds them at the end. */
  lemma {:induction false} SpaceTailIff(s: Name, n: nat)
    requires 0 < n <= |s|
    ensures SpaceTail(s) == n <==> exists c: nat :: WhiteSpace(c) && Scalar(c) && Encoding(c) == s[|s| - n..]
  {
    hide SpaceLen, SpaceTail, WhiteSpace, Encoding;
    if SpaceTail(s) == n {
      var t := s[|s| - n..];
      TailIsSpace(s, n);
      SpaceLenIff(t, n);
      var c: nat :| WhiteSpace(c) && Begins(t, n, c);
      assert t[..n] == t;
    }
    if c: nat :| WhiteSpace(c) && Scalar(c) && Encoding(c) == s[|s| - n..] {
      WhiteIsSpace(c, []);
      assert Encoding(c) + [] == Encoding(c);
      NoShorterSpace(s, n);
    }
  }

  lemma {:induction false} TailIsSpace(s: Name, n: nat)
    requires 0 < n <= |s| && SpaceTail(s) == n
    ensures SpaceLen(s[|s| - n..]) == n
  {
    hide SpaceLen;
  }

  lemma {:induction false} NoShorterSpace(s: Name, n: nat)
    requires 0 < n <= |s| && SpaceLen(s[|s| - n..]) == n
    ensures SpaceTail(s) == n
  {
    hide SpaceLen;
    var t := s[|s| - n..];
    SpaceEndsOnce(t);
    assert s[|s| - 1..] == t[n - 1..];
    if n >= 2 {
      assert s[|s| - 2..] == t[n - 2..];
    }
  }

  /** No white-space character ends in a shorter one. */
  lemma {:induction false} SpaceEndsOnce(t: Name)
    requires |t| > 0 && SpaceLen(t) == |t|
    ensures forall k :: 0 < k < |t| ==> SpaceLen(t[k..]) != |t| - k
  {
    if |t| == 2 {
      assert t[1..] == [t[1]];
    }
    if |t| == 3 {
      assert t[1..] == [t[1], t[2]] && t[2..] == [t[2]];
    }
  }

  predicate WhiteSpaces(cs: seq<nat>) {
    Scalars(cs) && forall k :: 0 <= k < |cs| ==> WhiteSpace(cs[k])
  }

  /** A run of white space. */
  ghost predicate AllWhite(s: Name) {
    exists cs :: WhiteSpaces(cs) && EncodeAll(cs) == s
  }

  lemma {:induction false} WhitePrepend(s: Name, n: nat)
    requires 0 < n <= |s| && SpaceLen(s) == n && AllWhite(s[n..])
    ensures AllWhite(s)
  {
    hide SpaceLen, WhiteSpace, Encoding;
    SpaceLenIff(s, n);
    var c: nat :| WhiteSpace(c) && Begins(s, n, c);
    var cs :| WhiteSpaces(cs) && EncodeAll(cs) == s[n..];
    EncodeAllHead(c, cs);
    assert s[..n] + s[n..] == s;
    assert WhiteSpaces([c] + cs);
  }

  lemma {:induction false} WhiteAppend(s: Name, t: Name)
    requires AllWhite(s) && AllWhite(t)
    ensures AllWhite(s + t)
  {
    hide WhiteSpace, Encoding, EncodeAll;
    var cs :| WhiteSpaces(cs) && EncodeAll(cs) == s;
    var ds :| WhiteSpaces(ds) && EncodeAll(ds) == t;
    EncodeAllAppend(cs, ds);
    assert EncodeAll(cs + ds) == s + t;
  }

  /** Trimming takes a run of white space from each end, and leaves none to take. */
  lemma {:induction false} TrimIsExact(s: Name) returns (left: Name, right: Name)
    ensures s == left + TrimRight(TrimLeft(s)) + right && AllWhite(left) && AllWhite(right)
    ensures SpaceTail(TrimRight(TrimLeft(s))) == 0 && SpaceLen(TrimRight(TrimLeft(s))) == 0
  {
    hide SpaceLen, SpaceTail, TrimLeft, TrimRight, AllWhite;
    left := TrimLeftIsExact(s);
    right := TrimRightIsExact(TrimLeft(s));
    assert left + TrimLeft(s) == left + TrimRight(TrimLeft(s)) + right;
    SpaceLenStays(TrimRight(TrimLeft(s)), right);
  }

  lemma {:induction false} SpaceLenStays(s: Name, t: Name)
    requires SpaceLen(s + t) == 0
    ensures SpaceLen(s) == 0
  {
  }

  lemma {:induction false} NothingIsWhite()
    ensures AllWhite([])
  {
    assert EncodeAll([]) == [];
  }

  lemma {:induction false} TrimLeftIsExact(s: Name) returns (left: Name)
    ensures s == left + TrimLeft(s) && AllWhite(left) && SpaceLen(TrimLeft(s)) == 0
    decreases |s|
  {
    hide SpaceLen, AllWhite, TrimLeft;
    var n := SpaceLen(s);
    TrimLeftOnce(s);
    if n == 0 {
      NothingIsWhite();
      left := [];
    } else {
      var rest := TrimLeftIsExact(s[n..]);
      left := s[..n] + rest;
      assert s == left + TrimLeft(s) by {
        Reassociate(s[..n], rest, TrimLeft(s));
      }
      LeftGrows(s, n, rest);
    }
  }

  lemma {:induction false} TrimLeftOnce(s: Name)
    ensures TrimLeft(s) == if SpaceLen(s) == 0 then s else TrimLeft(s[SpaceLen(s)..])
  {
    hide SpaceLen;
  }

  lemma {:induction false} Reassociate(a: Name, b: Name, c: Name)
    ensures a + (b + c) == a + b + c
  {
  }

  lemma {:induction false} LeftGrows(s: Name, n: nat, rest: Name)
    requires 0 < n <= |s| && SpaceLen(s) == n && AllWhite(rest)
    ensures AllWhite(s[..n] + rest)
  {
    hide SpaceLen, AllWhite;
    var left := s[..n] + rest;
    assert left[n..] == rest && left[..n] == s[..n];
    HeadIsSpace(s, left, n);
    WhitePrepend(left, n);
  }

  lemma {:induction false} HeadIsSpace(s: Name, t: Name, n: nat)
    requires 0 < n <= |s| && n <= |t| && SpaceLen(s) == n && s[..n] == t[..n]
    ensures SpaceLen(t) == n
  {
    assert forall i :: 0 <= i < n ==> t[i] == t[..n][i] && s[i] == s[..n][i];
  }

  lemma {:induction false} TrimRightIsExact(s: Name) returns (right: Name)
    ensures s == TrimRight(s) + right && AllWhite(right) && SpaceTail(TrimRight(s)) == 0
    decreases |s|
  {
    hide SpaceLen, SpaceTail, AllWhite;
    var n := SpaceTail(s);
    NothingIsWhite();
    if n == 0 {
      right := [];
    } else {
      var m := |s| - n;
      var rest := TrimRightIsExact(s[..m]);
      TailIsWhite(s, n);
      WhiteAppend(rest, s[m..]);
      right := rest + s[m..];
      assert s == s[..m] + s[m..];
    }
  }

  lemma {:induction false} TailIsWhite(s: Name, n: nat)
    requires 0 < n <= |s| && SpaceTail(s) == n
    ensures AllWhite(s[|s| - n..])
  {
    hide SpaceLen, SpaceTail, AllWhite;
    var t := s[|s| - n..];
    TailIsSpace(s, n);
    NothingIsWhite();
    assert t[n..] == [];
    WhitePrepend(t, n);
  }

  /** A sanitized name has at most 64 bytes: dashes for dots, colons and spaces, the others as they were. */
  lemma {:induction false} SanitizedIsSafe(s: Name)
    ensures var t, trimmed := SanitizeSessionName(s), TrimRight(TrimLeft(s));
            && |t| == (if |trimmed| > 64 then 64 else |trimmed|)
            && forall i :: 0 <= i < |t| ==>
                 && t[i] !in Bytes(".: ")
                 && t[i] == if trimmed[i] in Bytes(".: ") then Bytes("-")[0] else trimmed[i]
  {
    hide TrimLeft, TrimRight;
    assert Bytes(".: ") == [0x2E, 0x3A, 0x20] && Bytes("-") == [0x2D];
  }

  /** The bytes of an ASCII text. */
  function Bytes(s: string): Name
    requires forall i :: 0 <= i < |s| ==> s[i] < '\U{80}'
  {
    seq(|s|, i requires 0 <= i < |s| => s[i] as int)
  }

  // ---------- Candidates ----------

  function Decimal(n: nat): (d: Name)
    ensures |d| > 0 && forall i :: 0 <= i < |d| ==> 0x30 <= d[i] <= 0x39
  {
    if n < 10 then [0x30 + n] else Decimal(n / 10) + [0x30 + n % 10]
  }

  function Value(d: Name): int {
    if |d| == 0 then 0 else 10 * Value(d[..|d| - 1]) + d[|d| - 1] - 0x30
  }

  lemma {:induction false} ValueOfDecimal(n: nat)
    ensures Value(Decimal(n)) == n
    ensures n > 0 ==> Decimal(n)[0] != 0x30
  {
    var d := Decimal(n);
    if n >= 10 {
      ValueOfDecimal(n / 10);
      assert d[..|d| - 1] == Decimal(n / 10);
    } else {
      assert d[..0] == [];
    }
  }

  lemma {:induction false} DecimalLength(n: nat)
    requires n <= MAX_ATTEMPTS
    ensures |Decimal(n)| <= 4
    ensures n < 100 ==> |Decimal(n)| <= 2
    ensures n < 10 ==> |Decimal(n)| <= 1
  {
    if n >= 10 {
      assert Decimal(n) == Decimal(n / 10) + [0x30 + n % 10];
      DecimalLength(n / 10);
      if n / 10 >= 10 {
        assert Decimal(n / 10) == Decimal(n / 10 / 10) + [0x30 + n / 10 % 10];
        DecimalLength(n / 10 / 10);
      }
    }
  }

  /** The name tried for number `n`. */
  function Candidate(folder: Name, n: nat): Name {
    SanitizeSessionName(folder + [DASH] + Decimal(n))
  }

  lemma {:induction false} TrimLeftStops(f: Name, r: Name)
    requires |r| > 0 && r[0] == DASH
    ensures TrimLeft(f + r) == TrimLeft(f) + r
    decreases |f|
  {
    var n := SpaceLen(f);
    assert SpaceLen(f + r) == n;
    if n == 0 {
    } else {
      assert (f + r)[n..] == f[n..] + r;
      TrimLeftStops(f[n..], r);
    }
  }

  lemma {:induction false} DigitIsNoSpace(s: Name, k: nat)
    requires 1 <= k <= |s| && k <= 3 && 0x30 <= s[|s| - 1] <= 0x39
    ensures SpaceLen(s[|s| - k..]) != k
  {
    var t := s[|s| - k..];
    assert |t| == k && t[k - 1] == s[|s| - 1];
    if k == 3 {
      assert !IsWideSpace(t[0], t[1], t[2]);
    }
  }

  lemma {:induction false} TrimRightNone(s: Name)
    requires SpaceTail(s) == 0
    ensures TrimRight(s) == s
  {
    hide SpaceTail, SpaceLen;
  }

  lemma {:induction false} TrimRightStops(s: Name)
    requires |s| > 0 && 0x30 <= s[|s| - 1] <= 0x39
    ensures SpaceTail(s) == 0 && TrimRight(s) == s
  {
    hide SpaceLen, TrimRight;
    assert SpaceTail(s) == 0 by {
      DigitIsNoSpace(s, 1);
      if |s| >= 2 {
        DigitIsNoSpace(s, 2);
      }
      if |s| >= 3 {
        DigitIsNoSpace(s, 3);
      }
    }
    TrimRightNone(s);
  }

  /** The part of the folder name a candidate starts with. */
  function Stem(folder: Name): Name { Dashed(TrimLeft(folder)) }

  lemma {:induction false} DashedAppend(f: Name, n: nat)
    ensures Dashed(f + [DASH] + Decimal(n)) == Dashed(f) + [DASH] + Decimal(n)
  {
  }

  lemma {:induction false} TrimRightCandidate(stem: Name, n: nat)
    ensures TrimRight(stem + ([DASH] + Decimal(n))) == stem + ([DASH] + Decimal(n))
  {
    hide SpaceLen, SpaceTail, TrimRight;
    var d := Decimal(n);
    var whole := stem + ([DASH] + d);
    assert whole[|whole| - 1] == d[|d| - 1];
    TrimRightStops(whole);
  }

  lemma {:induction false} TrimCandidate(folder: Name, n: nat)
    ensures TrimRight(TrimLeft(folder + [DASH] + Decimal(n))) == TrimLeft(folder) + [DASH] + Decimal(n)
  {
    hide SpaceLen, SpaceTail, TrimLeft, TrimRight, Decimal;
    var d := Decimal(n);
    assert folder + [DASH] + d == folder + ([DASH] + d);
    TrimLeftStops(folder, [DASH] + d);
    TrimRightCandidate(TrimLeft(folder), n);
    assert TrimLeft(folder) + [DASH] + d == TrimLeft(folder) + ([DASH] + d);
  }

  /** A candidate is the stem, a dash and the number, cut to the longest allowed length. */
  lemma {:induction false} CandidateShape(folder: Name, n: nat)
    ensures Candidate(folder, n) == Cap(Stem(folder) + [DASH] + Decimal(n))
  {
    hide TrimLeft, TrimRight, Decimal;
    TrimCandidate(folder, n);
    DashedAppend(TrimLeft(folder), n);
  }

  /** The folder name leaves room for "-1000". */
  predicate HasRoom(folder: Name) { |TrimLeft(folder)| + 5 <= MAX_LENGTH }

  lemma {:induction false} CandidatesDiffer(folder: Name, a: nat, b: nat)
    requires HasRoom(folder) && a <= MAX_ATTEMPTS && b <= MAX_ATTEMPTS
    requires Candidate(folder, a) == Candidate(folder, b)
    ensures a == b
  {
    hide TrimLeft, Decimal, Value, Candidate;
    CandidateShape(folder, a);
    CandidateShape(folder, b);
    DecimalLength(a);
    DecimalLength(b);
    var p := Stem(folder) + [DASH];
    assert (p + Decimal(a))[|p|..] == Decimal(a);
    assert (p + Decimal(b))[|p|..] == Decimal(b);
    ValueOfDecimal(a);
    ValueOfDecimal(b);
  }

  lemma {:induction false} Decimal100()
    ensures |Decimal(100)| == 3 && Decimal(1000) == Decimal(100) + [0x30]
  {
    assert Decimal(10) == Decimal(1) + [0x30];
    assert Decimal(100) == Decimal(10) + [0x30];
  }

  lemma {:induction false} CandidatesCollide(folder: Name)
    requires !HasRoom(folder)
    ensures Candidate(folder, 100) == Candidate(folder, 1000)
  {
    hide TrimLeft, Decimal, Candidate;
    CandidateShape(folder, 100);
    CandidateShape(folder, 1000);
    Decimal100();
    var p := Stem(folder) + [DASH] + Decimal(100);
    assert Stem(folder) + [DASH] + Decimal(1000) == p + [0x30];
    assert Cap(p + [0x30]) == Cap(p);
  }

  ghost predicate AllDistinct(folder: Name) {
    forall a, b :: 1 <= a < b <= MAX_ATTEMPTS ==> Candidate(folder, a) != Candidate(folder, b)
  }

  /** The thousand candidates are pairwise distinct exactly when the folder name leaves room for the longest number. */
  lemma {:induction false} CandidatesDistinctIff(folder: Name)
    ensures AllDistinct(folder) <==> HasRoom(folder)
  {
    hide Candidate, HasRoom;
    if HasRoom(folder) {
      forall a, b | 1 <= a < b <= MAX_ATTEMPTS ensures Candidate(folder, a) != Candidate(folder, b) {
        if Candidate(folder, a) == Candidate(folder, b) {
          CandidatesDiffer(folder, a, b);
        }
      }
    } else {
      CandidatesCollide(folder);
    }
  }

  // ---------- The search ----------

  /** What tmux answers when it is asked about a name; `answers(n)` is its answer on attempt number `n`. */
  datatype Probe = Exists | Absent | ProbeError

  datatype Allocation = Allocated(name: Name) | ProbeFailed | NoneAvailable

  /** The folder part: the base name of the workspace path, or "terminal" if that says nothing. */
  function Folder(base: Name): Name {
    if base == [] || base == [0x2E] || base == [0x2F] then [0x74, 0x65, 0x72, 0x6D, 0x69, 0x6E, 0x61, 0x6C] else base
  }

  /** The folder name says something. */
  predicate Telling(base: Name) { base != Bytes("") && base != Bytes(".") && base != Bytes("/") }

  /** No white space in front and none of the three bytes anywhere. */
  predicate Plain(base: Name) {
    SpaceLen(base) == 0 && forall i :: 0 <= i < |base| ==> base[i] !in Bytes(".: ")
  }

  /** With a plain folder name that leaves room the name is "<folder>-<n>". */
  lemma {:induction false} NameReads(base: Name, n: nat)
    requires Telling(base) && Plain(base) && |base| + 1 + |Decimal(n)| <= 64
    ensures Candidate(Folder(base), n) == base + Bytes("-") + Decimal(n)
  {
    hide Candidate, Decimal, Stem, Plain, Folder;
    assert Folder(base) == base by {
      FolderIs(base);
    }
    CandidateShape(base, n);
    PlainIsKept(base);
    assert Bytes("-") == [DASH];
  }

  lemma {:induction false} FolderIs(base: Name)
    ensures Folder(base) == if Telling(base) then base else Bytes("terminal")
  {
    assert Bytes("terminal") == [0x74, 0x65, 0x72, 0x6D, 0x69, 0x6E, 0x61, 0x6C];
    assert Bytes("") == [] && Bytes(".") == [0x2E] && Bytes("/") == [0x2F];
  }

  /** Without a folder name to use it is "terminal-<n>". */
  lemma {:induction false} NamelessReads(base: Name, n: nat)
    requires !Telling(base) && n <= 1000
    ensures Candidate(Folder(base), n) == Bytes("terminal-") + Decimal(n)
  {
    hide Candidate, Decimal, Stem, Plain, Folder;
    FolderIs(base);
    CandidateShape(Bytes("terminal"), n);
    TerminalIsPlain();
    PlainIsKept(Bytes("terminal"));
    DecimalLength(n);
    assert Bytes("terminal-") == Bytes("terminal") + [DASH];
  }

  lemma {:induction false} TerminalIsPlain()
    ensures Plain(Bytes("terminal"))
  {
    assert Bytes("terminal") == [0x74, 0x65, 0x72, 0x6D, 0x69, 0x6E, 0x61, 0x6C];
    assert Bytes(".: ") == [0x2E, 0x3A, 0x20];
  }

  lemma {:induction false} PlainIsKept(folder: Name)
    requires Plain(folder)
    ensures Stem(folder) == folder
  {
    assert Bytes(".: ") == [0x2E, 0x3A, 0x20];
    assert 0x2E in Bytes(".: ") && 0x3A in Bytes(".: ") && 0x20 in Bytes(".: ");
  }

  /** The store or, when asked, tmux uses the candidate for `n`. */
  predicate InUse(folder: Name, n: nat, taken: set<Name>, answers: nat -> Probe) {
    Candidate(folder, n) in taken || answers(n).Exists?
  }

  /** All session names in the store, workspace by workspace. */
  function Taken(workspaces: seq<seq<Name>>): set<Name> {
    set w, t | 0 <= w < |workspaces| && 0 <= t < |workspaces[w]| :: workspaces[w][t]
  }

  /** All candidates below `n` are in use. */
  predicate AllInUse(folder: Name, n: nat, taken: set<Name>, answers: nat -> Probe) {
    forall m :: 1 <= m < n ==> InUse(folder, m, taken, answers)
  }

  /** Number `n` is the first one whose name neither the store nor tmux uses. */
  ghost predicate FirstFree(folder: Name, n: int, taken: set<Name>, answers: nat -> Probe) {
    1 <= n <= MAX_ATTEMPTS && !InUse(folder, n, taken, answers) && AllInUse(folder, n, taken, answers)
  }

  /** The search ends at the first free number: with its name if tmux says it is absent, else with an error. */
  ghost predicate EndsAtFirstFree(folder: Name, r: Allocation, taken: set<Name>, answers: nat -> Probe) {
    exists n :: FirstFree(folder, n, taken, answers)
                && (if r.Allocated? then r.name == Candidate(folder, n) && answers(n).Absent?
                    else r.ProbeFailed? && answers(n).ProbeError?)
  }

  /** Fills a set with the names in the store and then tries the candidates in order. */
  method DefaultTerminalName(base: Name, workspaces: seq<seq<Name>>, answers: nat -> Probe) returns (r: Allocation)
    ensures r.NoneAvailable? <==> AllInUse(Folder(base), MAX_ATTEMPTS + 1, Taken(workspaces), answers)
    ensures !r.NoneAvailable? ==> EndsAtFirstFree(Folder(base), r, Taken(workspaces), answers)
    ensures r.Allocated? ==> r.name !in Taken(workspaces)
  {
    hide Candidate;
    var folder := Folder(base);
    var taken := CollectTaken(workspaces);
    var n := 1;
    while n <= MAX_ATTEMPTS
      invariant 1 <= n <= MAX_ATTEMPTS + 1
      invariant AllInUse(folder, n, taken, answers)
    {
      var candidate := Candidate(folder, n);
      if candidate !in taken {
        match answers(n) {
          case ProbeError =>
            assert FirstFree(folder, n, taken, answers);
            return ProbeFailed;
          case Absent =>
            assert FirstFree(folder, n, taken, answers);
            return Allocated(candidate);
          case Exists =>
        }
      }
      n := n + 1;
    }
    return NoneAvailable;
  }

  method CollectTaken(workspaces: seq<seq<Name>>) returns (taken: set<Name>)
    ensures taken == Taken(workspaces)
  {
    taken := {};
    for w := 0 to |workspaces|
      invariant taken == Taken(workspaces[..w])
    {
      var names := workspaces[w];
      for t := 0 to |names|
        invariant taken == Taken(workspaces[..w]) + Taken([names[..t]])
      {
        taken := taken + {names[t]};
        assert names[..t + 1] == names[..t] + [names[t]];
        TakenPush(names[..t], names[t]);
      }
      assert names[..|names|] == names;
      assert workspaces[..w + 1] == workspaces[..w] + [names];
      TakenAppend(workspaces[..w], names);
    }
    assert workspaces[..|workspaces|] == workspaces;
  }

  lemma {:induction false} TakenPush(names: seq<Name>, name: Name)
    ensures Taken([names + [name]]) == Taken([names]) + {name}
  {
    var a, b := [names], [names + [name]];
    forall x ensures x in Taken(b) <==> x in Taken(a) + {name} {
      if x in Taken(a) {
        var t :| 0 <= t < |names| && a[0][t] == x;
        assert b[0][t] == x;
      }
      if x in Taken(b) {
        var t :| 0 <= t <= |names| && b[0][t] == x;
        assert t < |names| ==> a[0][t] == x;
      }
      assert b[0][|names|] == name;
    }
  }

  lemma {:induction false} TakenAppend(ws: seq<seq<Name>>, names: seq<Name>)
    ensures Taken(ws + [names]) == Taken(ws) + Taken([names])
  {
    var all := ws + [names];
    forall x ensures x in Taken(all) <==> x in Taken(ws) + Taken([names]) {
      if x in Taken(ws) {
        var w, t :| 0 <= w < |ws| && 0 <= t < |ws[w]| && ws[w][t] == x;
        assert all[w][t] == x;
      }
      if x in Taken([names]) {
        var t :| 0 <= t < |names| && [names][0][t] == x;
        assert all[|ws|][t] == x;
      }
    }
  }

  // ---------- Pigeonhole ----------

  function Candidates(folder: Name, k: nat): set<Name> {
    if k == 0 then {} else Candidates(folder, k - 1) + {Candidate(folder, k)}
  }

  lemma {:induction false} CandidateIsNew(folder: Name, k: nat, n: nat)
    requires HasRoom(folder) && k < n <= MAX_ATTEMPTS
    ensures Candidate(folder, n) !in Candidates(folder, k)
  {
    hide Candidate, HasRoom;
    if k == 0 {
    } else {
      CandidateIsNew(folder, k - 1, n);
      if Candidate(folder, n) == Candidate(folder, k) {
        CandidatesDiffer(folder, n, k);
      }
    }
  }

  /** The candidates for 1..k are k different names. */
  lemma {:induction false} CandidatesCount(folder: Name, k: nat, used: set<Name>)
    requires HasRoom(folder) && k <= MAX_ATTEMPTS
    requires forall n :: 1 <= n <= k ==> Candidate(folder, n) in used
    ensures |Candidates(folder, k)| == k && Candidates(folder, k) <= used
  {
    hide Candidate, HasRoom;
    if k == 0 {
    } else {
      CandidatesCount(folder, k - 1, used);
      CandidateIsNew(folder, k - 1, k);
    }
  }

  lemma {:induction false} SubsetSize(a: set<Name>, b: set<Name>)
    requires a <= b
    ensures |a| <= |b|
    decreases a
  {
    if a == {} {
    } else {
      var x :| x in a;
      SubsetSize(a - {x}, b - {x});
    }
  }

  /**
   With fewer than a thousand names in use, in the store or for tmux when it was asked, and a
   folder name with room, the search cannot come up empty.
   */
  lemma {:induction false} SearchSucceeds(
      base: Name, workspaces: seq<seq<Name>>, answers: nat -> Probe, used: set<Name>)
    requires HasRoom(Folder(base)) && |used| < MAX_ATTEMPTS
    requires forall n :: 1 <= n <= MAX_ATTEMPTS && InUse(Folder(base), n, Taken(workspaces), answers)
               ==> Candidate(Folder(base), n) in used
    ensures !AllInUse(Folder(base), MAX_ATTEMPTS + 1, Taken(workspaces), answers)
  {
    hide Candidate;
    var folder := Folder(base);
    if AllInUse(folder, MAX_ATTEMPTS + 1, Taken(workspaces), answers) {
      assert forall n :: 1 <= n <= MAX_ATTEMPTS ==> InUse(folder, n, Taken(workspaces), answers);
      CandidatesCount(folder, MAX_ATTEMPTS, used);
      SubsetSize(Candidates(folder, MAX_ATTEMPTS), used);
    }
  }

  lemma {:induction false} CandidatesHold(folder: Name, k: nat, n: nat)
    requires 1 <= n <= k
    ensures Candidate(folder, n) in Candidates(folder, k)
  {
    hide Candidate;
    if n < k {
      CandidatesHold(folder, k - 1, n);
    }
  }

  lemma {:induction false} CandidatesAtMost(folder: Name, k: nat)
    ensures |Candidates(folder, k)| <= k
  {
    hide Candidate;
    if k == 0 {
    } else {
      CandidatesAtMost(folder, k - 1);
    }
  }

  /** Without room, fewer than a thousand names are enough to make the search give up, whatever tmux says. */
  lemma {:induction false} SearchMayGiveUp(folder: Name, answers: nat -> Probe)
    requires !HasRoom(folder)
    ensures |Candidates(folder, MAX_ATTEMPTS)| < MAX_ATTEMPTS
    ensures AllInUse(folder, MAX_ATTEMPTS + 1, Candidates(folder, MAX_ATTEMPTS), answers)
  {
    hide Candidate, HasRoom;
    CandidatesCollide(folder);
    CandidatesHold(folder, MAX_ATTEMPTS - 1, 100);
    CandidatesAtMost(folder, MAX_ATTEMPTS - 1);
    assert Candidates(folder, MAX_ATTEMPTS) == Candidates(folder, MAX_ATTEMPTS - 1);
    forall n | 1 <= n <= MAX_ATTEMPTS ensures InUse(folder, n, Candidates(folder, MAX_ATTEMPTS), answers) {
      CandidatesHold(folder, MAX_ATTEMPTS, n);
    }
  }

  /** Some candidate is not among the names in use. */
  ghost predicate SomeFree(folder: Name, used: set<Name>) {
    exists n :: 1 <= n <= MAX_ATTEMPTS && Candidate(folder, n) !in used
  }

  /**
   The exact guarantee: fewer than a thousand names in use, whichever they are, always leave a
   candidate free if and only if the folder name leaves room for the longest number.
   */
  lemma {:induction false} SearchGuaranteeIff(folder: Name)
    ensures (forall used: set<Name> :: |used| < MAX_ATTEMPTS ==> SomeFree(folder, used)) <==> HasRoom(folder)
  {
    hide Candidate, HasRoom;
    if HasRoom(folder) {
      forall used: set<Name> | |used| < MAX_ATTEMPTS ensures SomeFree(folder, used) {
        if !SomeFree(folder, used) {
          CandidatesCount(folder, MAX_ATTEMPTS, used);
          SubsetSize(Candidates(folder, MAX_ATTEMPTS), used);
        }
      }
    } else {
      var used := Candidates(folder, MAX_ATTEMPTS);
      SearchMayGiveUp(folder, n => Absent);
      forall n | 1 <= n <= MAX_ATTEMPTS ensures Candidate(folder, n) in used {
        CandidatesHold(folder, MAX_ATTEMPTS, n);
      }
      assert !SomeFree(folder, used);
    }
  }

  /** A folder name as long as the limit makes every candidate the same. */
  lemma {:induction false} LongFolderHasOneCandidate(folder: Name, a: nat, b: nat)
    requires |TrimLeft(folder)| >= MAX_LENGTH
    ensures Candidate(folder, a) == Candidate(folder, b)
  {
    CandidateShape(folder, a);
    CandidateShape(folder, b);
    var p := Stem(folder);
    assert (p + [DASH] + Decimal(a))[..MAX_LENGTH] == p[..MAX_LENGTH];
    assert (p + [DASH] + Decimal(b))[..MAX_LENGTH] == p[..MAX_LENGTH];
  }

  /** So a single name in use then exhausts the search. */
  lemma {:induction false} OneNameExhausts(folder: Name, answers: nat -> Probe)
    requires |TrimLeft(folder)| >= MAX_LENGTH
    ensures AllInUse(folder, MAX_ATTEMPTS + 1, {Candidate(folder, 1)}, answers)
  {
    hide Candidate, TrimLeft;
    forall n | 1 <= n <= MAX_ATTEMPTS ensures InUse(folder, n, {Candidate(folder, 1)}, answers) {
      LongFolderHasOneCandidate(folder, n, 1);
    }
  }
}
