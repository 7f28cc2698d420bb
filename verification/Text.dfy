/** The string functions of Go that the handlers use, on sequences of code points. */
module Text {

  predicate HasPrefix(s: string, prefix: string) {
    |prefix| <= |s| && s[..|prefix|] == prefix
  }

  function TrimPrefix(s: string, prefix: string): string {
    if HasPrefix(s, prefix) then s[|prefix|..] else s
  }

  lemma TrimPrefixAdded(prefix: string, s: string)
    ensures TrimPrefix(prefix + s, prefix) == s
  {
    assert (prefix + s)[..|prefix|] == prefix;
  }

  // ---------------------------------------------------------------- trimming

  /** The characters with Unicode's White_Space property. */
  predicate IsSpace(c: char) {
    || '\U{9}' <= c <= '\U{d}' || c == ' ' || c == '\U{85}' || c == '\U{a0}' || c == '\U{1680}'
    || '\U{2000}' <= c <= '\U{200a}' || c == '\U{2028}' || c == '\U{2029}' || c == '\U{202f}'
    || c == '\U{205f}' || c == '\U{3000}'
  }

  predicate IsSlash(c: char) { c == '/' }

  function TrimLeft(s: string, cut: char -> bool): string {
    if s != "" && cut(s[0]) then TrimLeft(s[1..], cut) else s
  }

  function TrimRight(s: string, cut: char -> bool): string
    decreases |s|
  {
    if s != "" && cut(s[|s| - 1]) then TrimRight(s[..|s| - 1], cut) else s
  }

  function Trim(s: string, cut: char -> bool): string { TrimRight(TrimLeft(s, cut), cut) }

  function TrimSpace(s: string): string { Trim(s, IsSpace) }

  /** Nothing is left to cut at either end. */
  predicate Trimmed(s: string, cut: char -> bool) {
    s == "" || (!cut(s[0]) && !cut(s[|s| - 1]))
  }

  lemma {:induction false} TrimLeftOf(s: string, cut: char -> bool) returns (n: nat)
    ensures n <= |s| && TrimLeft(s, cut) == s[n..]
    ensures forall i :: 0 <= i < n ==> cut(s[i])
    ensures n < |s| ==> !cut(s[n])
  {
    if s != "" && cut(s[0]) {
      var m := TrimLeftOf(s[1..], cut);
      n := m + 1;
      assert forall i :: 1 <= i < n ==> s[i] == s[1..][i - 1];
    } else {
      n := 0;
    }
  }

  lemma {:induction false} TrimRightOf(s: string, cut: char -> bool) returns (n: nat)
    ensures n <= |s| && TrimRight(s, cut) == s[..n]
    ensures forall i :: n <= i < |s| ==> cut(s[i])
    ensures n > 0 ==> !cut(s[n - 1])
    decreases |s|
  {
    if s != "" && cut(s[|s| - 1]) {
      n := TrimRightOf(s[..|s| - 1], cut);
    } else {
      n := |s|;
    }
  }

  /** Trimming cuts exactly the matching characters at the two ends. */
  lemma TrimOf(s: string, cut: char -> bool) returns (from: nat, to: nat)
    ensures from <= to <= |s| && Trim(s, cut) == s[from..to]
    ensures forall i :: 0 <= i < from || to <= i < |s| ==> cut(s[i])
    ensures Trimmed(Trim(s, cut), cut)
  {
    from := TrimLeftOf(s, cut);
    var n := TrimRightOf(s[from..], cut);
    to := from + n;
    assert forall i :: to <= i < |s| ==> s[i] == s[from..][i - from];
  }

  lemma {:induction false} TrimLeftIs(before: string, rest: string, cut: char -> bool)
    requires (forall c :: c in before ==> cut(c)) && (rest == "" || !cut(rest[0]))
    ensures TrimLeft(before + rest, cut) == rest
  {
    if before == "" {
      assert before + rest == rest;
    } else {
      assert before[0] in before && (before + rest)[1..] == before[1..] + rest;
      TrimLeftIs(before[1..], rest, cut);
    }
  }

  lemma {:induction false} TrimRightIs(rest: string, after: string, cut: char -> bool)
    requires (forall c :: c in after ==> cut(c)) && (rest == "" || !cut(rest[|rest| - 1]))
    ensures TrimRight(rest + after, cut) == rest
    decreases |after|
  {
    if after == "" {
      assert rest + after == rest;
    } else {
      var (all, n) := (rest + after, |after| - 1);
      assert after[n] in after && all[|all| - 1] == after[n] && all[..|all| - 1] == rest + after[..n];
      TrimRightIs(rest, after[..n], cut);
    }
  }

  /** Trimming a string that has nothing left to cut between two that are cut entirely. */
  lemma TrimIs(before: string, core: string, after: string, cut: char -> bool)
    requires (forall c :: c in before ==> cut(c)) && (forall c :: c in after ==> cut(c)) && Trimmed(core, cut)
    ensures Trim(before + core + after, cut) == core
  {
    if core == "" {
      assert before + core + after == before + after;
      assert forall c :: c in before + after ==> cut(c);
      assert (before + after) + "" == before + after;
      TrimLeftIs(before + after, "", cut);
    } else {
      assert before + core + after == before + (core + after);
      TrimLeftIs(before, core + after, cut);
      TrimRightIs(core, after, cut);
    }
  }

  lemma TrimTwice(s: string, cut: char -> bool)
    ensures Trim(Trim(s, cut), cut) == Trim(s, cut)
  {
    var from, to := TrimOf(s, cut);
  }

  /** Trimming leaves a string alone exactly when it has nothing to cut. */
  /** White space, by code point: what is trimmed away and what stays. */
  lemma SpaceIff(c: char)
    ensures TrimSpace([c]) == if c as int in {0x9, 0xa, 0xb, 0xc, 0xd, 0x20, 0x85, 0xa0, 0x1680,
                                              0x2000, 0x2001, 0x2002, 0x2003, 0x2004, 0x2005, 0x2006,
                                              0x2007, 0x2008, 0x2009, 0x200a,
                                              0x2028, 0x2029, 0x202f, 0x205f, 0x3000} then "" else [c]
  {
    TrimIsEmptyIff([c], IsSpace);
    TrimIsIdentityIff([c], IsSpace);
    assert c in [c];
  }

  lemma TrimIsIdentityIff(s: string, cut: char -> bool)
    ensures Trim(s, cut) == s <==> Trimmed(s, cut)
  {
    var from, to := TrimOf(s, cut);
  }

  lemma TrimIsEmptyIff(s: string, cut: char -> bool)
    ensures Trim(s, cut) == "" <==> forall c :: c in s ==> cut(c)
  {
    var from, to := TrimOf(s, cut);
    if from < to {
      assert s[from] in s && s[from] == Trim(s, cut)[0];
    }
  }

  // ---------------------------------------------------------------- splitting and joining

  /** The position of the first `c`, or the length of the string. */
  function Index(s: string, c: char): (i: nat)
    ensures i <= |s| && (i < |s| ==> s[i] == c)
    ensures c !in s[..i]
  {
    if s == "" || s[0] == c then 0
    else
      var i := 1 + Index(s[1..], c);
      assert s[..i] == [s[0]] + s[1..][..i - 1];
      i
  }

  /** At most `n` fields; the last is the unsplit remainder. */
  function SplitN(s: string, sep: char, n: nat): (fields: seq<string>)
    requires n > 0
    ensures 1 <= |fields| <= n
  {
    var i := Index(s, sep);
    if n == 1 || i == |s| then [s] else [s[..i]] + SplitN(s[i + 1..], sep, n - 1)
  }

  function Split(s: string, sep: char): seq<string> { SplitN(s, sep, |s| + 1) }

  function Join(fields: seq<string>, sep: char): string {
    if fields == [] then "" else if |fields| == 1 then fields[0] else fields[0] + [sep] + Join(fields[1..], sep)
  }

  /** Joining undoes splitting, whatever the limit. */
  lemma {:induction false} JoinSplitN(s: string, sep: char, n: nat)
    requires n > 0
    ensures Join(SplitN(s, sep, n), sep) == s
  {
    var i := Index(s, sep);
    if n > 1 && i < |s| {
      var rest := SplitN(s[i + 1..], sep, n - 1);
      JoinSplitN(s[i + 1..], sep, n - 1);
      JoinFirst(s[..i], rest, sep);
      assert s == s[..i] + [sep] + s[i + 1..];
    }
  }

  lemma JoinFirst(first: string, rest: seq<string>, sep: char)
    requires rest != []
    ensures Join([first] + rest, sep) == first + [sep] + Join(rest, sep)
  {
    assert ([first] + rest)[1..] == rest;
  }

  /** The fields hold no separator; with `JoinSplitN` that says what they are. */
  lemma {:induction false} SplitFields(s: string, sep: char, n: nat)
    requires n > |s|
    ensures forall f :: f in SplitN(s, sep, n) ==> sep !in f
    decreases |s|
  {
    var i := Index(s, sep);
    assert s[..|s|] == s;
    if i < |s| {
      SplitFields(s[i + 1..], sep, n - 1);
    }
  }

  lemma {:induction false} JoinAppend(a: seq<string>, b: seq<string>, sep: char)
    requires a != [] && b != []
    ensures Join(a + b, sep) == Join(a, sep) + [sep] + Join(b, sep)
  {
    if |a| == 1 {
      assert (a + b)[1..] == b;
    } else {
      assert (a + b)[1..] == a[1..] + b;
      JoinAppend(a[1..], b, sep);
    }
  }
}
