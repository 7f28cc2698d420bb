/** Paths as lists of segments: what a client does to a path before it requests it, and
    the server's mux before a handler sees it. */
module UrlPaths {
  import opened Text

  /** The fields between slashes; there is always at least one. */
  function Segments(s: string): (fields: seq<string>)
    ensures fields != [] && forall f :: f in fields ==> '/' !in f
  {
    var i := Index(s, '/');
    if i == |s| then
      assert s[..i] == s;
      [s]
    else [s[..i]] + Segments(s[i + 1..])
  }

  /** The segments after the leading slash. */
  function Segs(path: string): seq<string> { Segments(TrimPrefix(path, "/")) }

  function Path(segments: seq<string>): string { "/" + Join(segments, '/') }

  ghost predicate SlashFree(segments: seq<string>) { forall f :: f in segments ==> '/' !in f }

  lemma {:induction false} JoinSegments(s: string)
    ensures Join(Segments(s), '/') == s
  {
    var i := Index(s, '/');
    if i < |s| {
      JoinSegments(s[i + 1..]);
      assert Segments(s)[1..] == Segments(s[i + 1..]);
      assert s == s[..i] + "/" + s[i + 1..];
    }
  }

  lemma {:induction false} IndexPast(s: string, t: string, c: char)
    ensures Index(s + t, c) == if c in s then Index(s, c) else |s| + Index(t, c)
    decreases |s|
  {
    if s == "" {
      assert s + t == t;
    } else {
      assert s == [s[0]] + s[1..];
      assert (s + t)[0] == s[0] && (s + t)[1..] == s[1..] + t;
      IndexPast(s[1..], t, c);
    }
  }

  lemma SegmentsFirst(first: string, rest: string)
    requires '/' !in first
    ensures Segments(first + ("/" + rest)) == [first] + Segments(rest)
  {
    var s := first + ("/" + rest);
    IndexPast(first, "/" + rest, '/');
    assert s[..|first|] == first && s[|first| + 1..] == rest;
  }

  lemma SegmentsOne(s: string)
    requires '/' !in s
    ensures Segments(s) == [s]
  {
    IndexPast(s, "", '/');
    assert s + "" == s;
  }

  lemma {:induction false} SegmentsJoin(segments: seq<string>)
    requires segments != [] && SlashFree(segments)
    ensures Segments(Join(segments, '/')) == segments
  {
    assert segments[0] in segments;
    if |segments| == 1 {
      SegmentsOne(segments[0]);
    } else {
      var rest := segments[1..];
      assert forall f :: f in rest ==> f in segments;
      SegmentsJoin(rest);
      SegmentsFirst(segments[0], Join(rest, '/'));
      JoinSlash(segments[0], rest);
      assert segments == [segments[0]] + rest;
    }
  }

  lemma JoinSlash(first: string, rest: seq<string>)
    requires rest != []
    ensures Join([first] + rest, '/') == first + ("/" + Join(rest, '/'))
  {
    JoinFirst(first, rest, '/');
  }

  lemma PathOfSegs(path: string)
    requires HasPrefix(path, "/")
    ensures Path(Segs(path)) == path
  {
    JoinSegments(path[1..]);
  }

  lemma SegsOfPath(segments: seq<string>)
    requires segments != [] && SlashFree(segments)
    ensures Segs(Path(segments)) == segments
  {
    TrimPrefixAdded("/", Join(segments, '/'));
    SegmentsJoin(segments);
  }

  // ---------------------------------------------------------------- dot segments

  predicate IsDot(f: string) { f == "." || f == ".." }

  ghost predicate Dotless(segments: seq<string>) { forall f :: f in segments ==> !IsDot(f) }

  function Up(done: seq<string>): seq<string> { if done == [] then [] else done[..|done| - 1] }

  /** Section 5.2.4 of RFC 3986, after the segments in `done`: one dot stays, two go up, and
      either as the last segment leaves a trailing slash. */
  function Dots(done: seq<string>, rest: seq<string>): seq<string>
    decreases |rest|
  {
    if rest == [] then done
    else if IsDot(rest[0]) then
      var at := if rest[0] == "." then done else Up(done);
      if |rest| == 1 then at + [""] else Dots(at, rest[1..])
    else Dots(done + [rest[0]], rest[1..])
  }

  function RemoveDots(path: string): string { Path(Dots([], Segs(path))) }

  /** From `depth` segments below the root, the segments go up past it. */
  predicate Climbs(depth: nat, rest: seq<string>)
    decreases |rest|
  {
    if rest == [] then false
    else if rest[0] == "." then Climbs(depth, rest[1..])
    else if rest[0] == ".." then depth == 0 || Climbs(depth - 1, rest[1..])
    else Climbs(depth + 1, rest[1..])
  }

  /** Below a prefix the segments do what they do at the root exactly as long as they do not
      climb; climbing loses part of the prefix. */
  lemma {:induction false} DotsBelow(prefix: seq<string>, done: seq<string>, rest: seq<string>)
    ensures |Dots(done, rest)| <= |Dots(prefix + done, rest)| <= |prefix| + |Dots(done, rest)|
    ensures Climbs(|done|, rest) && prefix != [] ==> |Dots(prefix + done, rest)| < |prefix| + |Dots(done, rest)|
    ensures !Climbs(|done|, rest) ==> Dots(prefix + done, rest) == prefix + Dots(done, rest)
    decreases |rest|
  {
    if rest != [] {
      if rest[0] == "." {
        DotsBelow(prefix, done, rest[1..]);
        assert prefix + done + [""] == prefix + (done + [""]);
      } else if rest[0] == ".." {
        if done == [] {
          DotsBelow(Up(prefix), [], rest[1..]);
          assert Up(prefix) + [] == Up(prefix) && prefix + [] == prefix;
        } else {
          DotsBelow(prefix, Up(done), rest[1..]);
          assert Up(prefix + done) == prefix + Up(done);
          assert prefix + Up(done) + [""] == prefix + (Up(done) + [""]);
        }
      } else {
        DotsBelow(prefix, done + [rest[0]], rest[1..]);
        assert prefix + done + [rest[0]] == prefix + (done + [rest[0]]);
      }
    }
  }

  /** Ordinary segments at the front are only taken over. */
  lemma {:induction false} DotsFront(done: seq<string>, front: seq<string>, rest: seq<string>)
    requires Dotless(front)
    ensures Dots(done, front + rest) == Dots(done + front, rest)
    decreases |front|
  {
    if front == [] {
      assert front + rest == rest && done + front == done;
    } else {
      assert front[0] in front && (front + rest)[1..] == front[1..] + rest;
      DotsFront(done + [front[0]], front[1..], rest);
      assert done + [front[0]] + front[1..] == done + front;
    }
  }

  function Last(segments: seq<string>): string
    requires segments != []
  {
    segments[|segments| - 1]
  }

  /** Whether the result ends in a slash depends on the last segment alone. */
  lemma {:induction false} DotsLast(done: seq<string>, rest: seq<string>)
    requires rest != []
    ensures Dots(done, rest) != []
    ensures Last(Dots(done, rest)) == "" <==> Last(rest) == "" || IsDot(Last(rest))
    decreases |rest|
  {
    if |rest| > 1 {
      assert Last(rest[1..]) == Last(rest);
      if IsDot(rest[0]) {
        DotsLast(if rest[0] == "." then done else Up(done), rest[1..]);
      } else {
        DotsLast(done + [rest[0]], rest[1..]);
      }
    } else if !IsDot(rest[0]) {
      assert rest[1..] == [];
    }
  }

  /** No dot segments are left, and no segment is new but an empty one. */
  lemma {:induction false} DotsFrom(done: seq<string>, rest: seq<string>)
    requires Dotless(done)
    ensures Dotless(Dots(done, rest))
    ensures forall f :: f in Dots(done, rest) ==> f in done || f in rest || f == ""
    decreases |rest|
  {
    if rest != [] {
      assert rest == [rest[0]] + rest[1..];
      if !IsDot(rest[0]) {
        DotsFrom(done + [rest[0]], rest[1..]);
      } else if |rest| > 1 {
        DotsFrom(if rest[0] == "." then done else Up(done), rest[1..]);
      }
    }
  }

  lemma DotsOfDotless(segments: seq<string>)
    requires Dotless(segments)
    ensures Dots([], segments) == segments
  {
    DotsFront([], segments, []);
    assert segments + [] == segments && [] + segments == segments;
  }

  lemma SegsOfDots(done: seq<string>, rest: seq<string>)
    requires rest != [] && Dotless(done) && SlashFree(done) && SlashFree(rest)
    ensures Segs(Path(Dots(done, rest))) == Dots(done, rest)
  {
    DotsLast(done, rest);
    DotsFrom(done, rest);
    SegsOfPath(Dots(done, rest));
  }

  // ---------------------------------------------------------------- the mux

  /** The segments that path.Clean keeps: empty ones go too. */
  function Cleaned(done: seq<string>, rest: seq<string>): seq<string>
    decreases |rest|
  {
    if rest == [] then done
    else if rest[0] == "" || rest[0] == "." then Cleaned(done, rest[1..])
    else if rest[0] == ".." then Cleaned(Up(done), rest[1..])
    else Cleaned(done + [rest[0]], rest[1..])
  }

  /** The mux's path: cleaned, with a trailing slash put back. */
  function Mux(segments: seq<string>): seq<string>
    requires segments != []
  {
    var kept := Cleaned([], segments);
    if Last(segments) == "" || kept == [] then kept + [""] else kept
  }

  /** No two slashes in a row: only the last segment may be empty. */
  predicate Tidy(segments: seq<string>) { forall i :: 0 <= i < |segments| - 1 ==> segments[i] != "" }

  lemma {:induction false} CleanedDotless(done: seq<string>, rest: seq<string>)
    requires Dotless(rest)
    ensures var c := Cleaned(done, rest);
            && |done| <= |c| <= |done| + |rest| && c[..|done|] == done
            && (forall f :: f in c ==> f in done || (f in rest && f != ""))
            && ("" in rest ==> |c| < |done| + |rest|)
            && ("" !in rest ==> c == done + rest)
            && (rest != [] && Last(rest) != "" ==> |c| > |done| && Last(c) == Last(rest))
    decreases |rest|
  {
    if rest == [] {
      assert done + rest == done;
    } else {
      assert rest[0] in rest && rest == [rest[0]] + rest[1..];
      if rest[0] == "" {
        CleanedDotless(done, rest[1..]);
      } else {
        CleanedDotless(done + [rest[0]], rest[1..]);
        assert done + [rest[0]] + rest[1..] == done + rest;
        assert (done + [rest[0]])[..|done|] == done;
        if |rest| == 1 {
          assert Cleaned(done, rest) == done + [rest[0]];
        }
      }
    }
  }

  lemma {:induction false} CleanedSplit(done: seq<string>, a: seq<string>, b: seq<string>)
    ensures Cleaned(done, a + b) == Cleaned(Cleaned(done, a), b)
    decreases |a|
  {
    if a == [] {
      assert a + b == b;
    } else {
      assert (a + b)[1..] == a[1..] + b;
      var at := if a[0] == "" || a[0] == "." then done else if a[0] == ".." then Up(done) else done + [a[0]];
      CleanedSplit(at, a[1..], b);
    }
  }

  lemma TidyIff(front: seq<string>, last: string)
    ensures Tidy(front + [last]) <==> "" !in front
  {
    var segments := front + [last];
    if "" in front {
      var i :| 0 <= i < |front| && front[i] == "";
      assert segments[i] == "";
    } else {
      forall i | 0 <= i < |front| ensures segments[i] != "" {
        assert front[i] in front;
      }
    }
  }

  lemma TidyBelow(prefix: seq<string>, segments: seq<string>)
    requires forall f :: f in prefix ==> f != ""
    ensures segments != [] ==> (Tidy(prefix + segments) <==> Tidy(segments))
  {
    var (all, n) := (prefix + segments, |prefix|);
    if segments != [] && Tidy(all) {
      forall i | 0 <= i < |segments| - 1 ensures segments[i] != "" {
        assert all[n + i] == segments[i];
      }
    }
    if segments != [] && Tidy(segments) {
      forall i | 0 <= i < |all| - 1 ensures all[i] != "" {
        assert if i < n then all[i] in prefix else all[i] == segments[i - n];
      }
    }
  }

  lemma MuxIs(front: seq<string>, last: string)
    requires Dotless(front) && !IsDot(last)
    ensures Mux(front + [last]) == Cleaned([], front) + [last]
  {
    CleanedSplit([], front, [last]);
    var kept := Cleaned([], front);
    assert [last][1..] == [];
    assert Cleaned(kept, [last]) == if last == "" then kept else kept + [last];
  }

  /** On a path without dot segments the mux removes exactly the doubled slashes. */
  lemma MuxDotless(segments: seq<string>)
    requires segments != [] && Dotless(segments)
    ensures var m := Mux(segments);
            && m != [] && Dotless(m) && Tidy(m) && (Last(m) == "" <==> Last(segments) == "")
            && (forall f :: f in m ==> f in segments || f == "")
            && |m| <= |segments| && (Tidy(segments) ==> m == segments) && (!Tidy(segments) ==> |m| < |segments|)
  {
    var (n, last) := (|segments| - 1, Last(segments));
    var front := segments[..n];
    assert segments == front + [last] && last in segments;
    MuxIs(front, last);
    CleanedDotless([], front);
    TidyIff(front, last);
    TidyIff(Cleaned([], front), last);
    assert [] + front == front;
  }

  // ---------------------------------------------------------------- what a handler sees

  /** The path with which a followed link arrives: without dot segments, and after the
      mux's own redirect to the clean path. */
  function Arrives(path: string): string { Path(Mux(ArrivingDots(path))) }

  function ArrivingDots(path: string): (segments: seq<string>)
    ensures segments != []
  {
    DotsLast([], Segs(path));
    Dots([], Segs(path))
  }

  lemma ArrivesIs(path: string)
    ensures var (m, segs) := (Segs(Arrives(path)), Segs(path));
            && m == Mux(Dots([], segs)) && Dotless(m) && Tidy(m)
            && forall f :: f in m ==> f in segs || f == ""
  {
    var segs := Segs(path);
    DotsFrom([], segs);
    DotsLast([], segs);
    MuxDotless(Dots([], segs));
    SegsOfPath(Mux(Dots([], segs)));
  }
}
