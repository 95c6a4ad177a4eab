/**
 The streaming marker scan of a packaged file: it reads chunk by chunk, carries a bounded tail, and finds a
 marker exactly when one occurs in the whole lower-cased stream, wherever the chunks are cut.
 */
module SecretScan {
  import opened Domain

  /** ASCII lower case, as Python's bytes.lower. */
  function LowerChar(c: char): char {
    if 'A' <= c <= 'Z' then c - 'A' + 'a' else c
  }

  function Lower(s: string): (l: string)
    ensures |l| == |s| && forall i :: 0 <= i < |s| ==> l[i] == LowerChar(s[i])
  {
    seq(|s|, i requires 0 <= i < |s| => LowerChar(s[i]))
  }

  predicate OccursAt(m: string, s: string, i: int) {
    0 <= i <= |s| - |m| && s[i..i + |m|] == m
  }

  predicate Occurs(m: string, s: string) {
    exists i | 0 <= i <= |s| :: OccursAt(m, s, i)
  }

  predicate AnyOccurs(markers: seq<string>, s: string) {
    exists m <- markers :: Occurs(m, s)
  }

  /** The bytes that the reads deliver: an empty read is the end. */
  function Stream(parts: seq<string>): string {
    if parts == [] || parts[0] == "" then "" else parts[0] + Stream(parts[1..])
  }

  /** Python's s[-n:] for n > 0, and nothing for n = 0. */
  function Tail(s: string, n: nat): string {
    if n >= |s| then s else s[|s| - n..]
  }

  // ---------- Why the carried tail is enough ----------

  lemma LowerConcat(s: string, t: string)
    ensures Lower(s + t) == Lower(s) + Lower(t)
  {
  }

  /** The same letter, in either case. */
  predicate SameLetter(c: char, d: char) {
    || c == d
    || ('a' <= c <= 'z' && d as int == c as int - 32) || ('a' <= d <= 'z' && c as int == d as int - 32)
  }

  /** The 26 letters lose their case, and nothing else changes: two texts look alike exactly when their letters do. */
  lemma CaseIsIgnoredExactly(s: string, t: string)
    ensures Lower(s) == Lower(t) <==> |s| == |t| && forall i :: 0 <= i < |s| ==> SameLetter(s[i], t[i])
    ensures forall i :: 0 <= i < |s| ==> SameLetter(Lower(s)[i], s[i]) && !('A' <= Lower(s)[i] <= 'Z')
  {
    forall i | 0 <= i < |s| && i < |t| ensures LowerChar(s[i]) == LowerChar(t[i]) <==> SameLetter(s[i], t[i]) {
    }
    if Lower(s) == Lower(t) {
      forall i | 0 <= i < |s| ensures SameLetter(s[i], t[i]) {
        assert Lower(s)[i] == Lower(t)[i];
      }
    }
  }

  lemma LowerTwice(s: string)
    ensures Lower(Lower(s)) == Lower(s)
  {
  }

  lemma TailSplits(s: string, n: nat)
    ensures exists front :: s == front + Tail(s, n) && (front != "" ==> |Tail(s, n)| == n)
  {
    var cut := if n >= |s| then 0 else |s| - n;
    assert s == s[..cut] + Tail(s, n);
  }

  lemma OccursInFront(m: string, front: string, s: string, i: int)
    ensures OccursAt(m, s, i) <==> OccursAt(m, front + s, i + |front|) && i >= 0
    ensures 0 <= i <= |front| - |m| ==> (OccursAt(m, front, i) <==> OccursAt(m, front + s, i))
  {
    if 0 <= i <= |s| - |m| {
      assert (front + s)[i + |front|..i + |front| + |m|] == s[i..i + |m|];
    }
    if 0 <= i <= |front| - |m| {
      assert (front + s)[i..i + |m|] == front[i..i + |m|];
    }
  }

  /** A marker in `seen + chunk` is in `seen`, or in the carried tail followed by the chunk. */
  lemma FoundInWindow(m: string, seen: string, chunk: string, n: nat)
    requires |m| <= n + 1
    ensures Occurs(m, seen + chunk) <==> Occurs(m, seen) || Occurs(m, Tail(seen, n) + chunk)
  {
    TailSplits(seen, n);
    var front :| seen == front + Tail(seen, n) && (front != "" ==> |Tail(seen, n)| == n);
    var window := Tail(seen, n) + chunk;
    assert seen + chunk == front + window;
    if Occurs(m, seen) {
      var i :| OccursAt(m, seen, i);
      assert OccursAt(m, seen, i);
      OccursInFront(m, seen, chunk, i);
      assert OccursAt(m, seen + chunk, i);
    }
    if Occurs(m, window) {
      var i :| OccursAt(m, window, i);
      assert OccursAt(m, window, i);
      OccursInFront(m, front, window, i);
      assert OccursAt(m, seen + chunk, i + |front|);
    }
    if Occurs(m, seen + chunk) {
      var i :| OccursAt(m, seen + chunk, i);
      AcrossTheCut(m, seen, chunk, front, window, i);
    }
  }

  lemma AcrossTheCut(m: string, seen: string, chunk: string, front: string, window: string, i: int)
    requires OccursAt(m, seen + chunk, i) && seen + chunk == front + window
    requires |front| <= |seen| && (front != "" ==> |m| <= |seen| - |front| + 1)
    ensures Occurs(m, seen) || Occurs(m, window)
  {
    if i <= |seen| - |m| {
      OccursInFront(m, seen, chunk, i);
      assert OccursAt(m, seen, i);
    } else {
      OccursInFront(m, front, window, i - |front|);
      assert OccursAt(m, window, i - |front|);
    }
  }

  lemma AnyFoundInWindow(markers: seq<string>, seen: string, chunk: string, n: nat)
    requires forall m <- markers :: |m| <= n + 1
    ensures AnyOccurs(markers, seen + chunk) <==> AnyOccurs(markers, seen) || AnyOccurs(markers, Tail(seen, n) + chunk)
  {
    forall m <- markers ensures Occurs(m, seen + chunk) <==> Occurs(m, seen) || Occurs(m, Tail(seen, n) + chunk) {
      FoundInWindow(m, seen, chunk, n);
    }
  }

  lemma TailOfTail(seen: string, chunk: string, n: nat)
    ensures Tail(Tail(seen, n) + chunk, n) == Tail(seen + chunk, n)
  {
    TailSplits(seen, n);
    var front :| seen == front + Tail(seen, n) && (front != "" ==> |Tail(seen, n)| == n);
    assert seen + chunk == front + (Tail(seen, n) + chunk);
  }

  lemma OccursLater(markers: seq<string>, s: string, more: string)
    requires AnyOccurs(markers, s)
    ensures AnyOccurs(markers, s + more)
  {
    var m :| m in markers && Occurs(m, s);
    var i :| OccursAt(m, s, i);
    assert OccursAt(m, s, i);
    OccursInFront(m, s, more, i);
    assert OccursAt(m, s + more, i);
  }

  lemma LowerOfTail(s: string, n: nat)
    ensures Lower(Tail(Lower(s), n)) == Tail(Lower(s), n)
  {
    LowerTwice(s);
  }

  lemma StreamNext(parts: seq<string>, i: nat, seen: string)
    requires i < |parts| && parts[i] != "" && Stream(parts) == seen + Stream(parts[i..])
    ensures Stream(parts) == (seen + parts[i]) + Stream(parts[i + 1..])
  {
    assert parts[i..][0] == parts[i] && parts[i..][1..] == parts[i + 1..];
    assert (seen + parts[i]) + Stream(parts[i + 1..]) == seen + (parts[i] + Stream(parts[i + 1..]));
  }

  /** One more chunk: the window answers for everything read so far, and the next tail is right again. */
  lemma ScanStep(parts: seq<string>, markers: seq<string>, i: nat, seen: string, carry: string, keep: nat)
    requires i < |parts| && parts[i] != "" && Stream(parts) == seen + Stream(parts[i..])
    requires forall m <- markers :: |m| <= keep + 1
    requires carry == Tail(Lower(seen), keep)
    ensures Stream(parts) == (seen + parts[i]) + Stream(parts[i + 1..])
    ensures Tail(Lower(carry + parts[i]), keep) == Tail(Lower(seen + parts[i]), keep)
    ensures AnyOccurs(markers, Lower(seen + parts[i]))
        <==> AnyOccurs(markers, Lower(seen)) || AnyOccurs(markers, Lower(carry + parts[i]))
  {
    StreamNext(parts, i, seen);
    LowerConcat(carry, parts[i]);
    LowerConcat(seen, parts[i]);
    LowerOfTail(seen, keep);
    AnyFoundInWindow(markers, Lower(seen), Lower(parts[i]), keep);
    TailOfTail(Lower(seen), Lower(parts[i]), keep);
  }

  lemma FoundHere(parts: seq<string>, i: nat, seen: string, carry: string, keep: nat, m: string)
    requires i < |parts| && parts[i] != "" && Stream(parts) == seen + Stream(parts[i..])
    requires |m| <= keep + 1 && carry == Tail(Lower(seen), keep)
    requires Occurs(m, Lower(carry + parts[i]))
    ensures Occurs(m, Lower(Stream(parts)))
  {
    ScanStep(parts, [m], i, seen, carry, keep);
    assert m in [m];
    LowerConcat(seen + parts[i], Stream(parts[i + 1..]));
    OccursLater([m], Lower(seen + parts[i]), Lower(Stream(parts[i + 1..])));
  }

  // ---------- The program ----------

  method LongestMarker(markers: seq<string>) returns (max: nat)
    requires markers != []
    ensures forall m <- markers :: |m| <= max
    ensures exists m <- markers :: |m| == max
  {
    max := |markers[0]|;
    for i := 1 to |markers|
      invariant forall m <- markers[..i] :: |m| <= max
      invariant exists m <- markers :: |m| == max
    {
      if |markers[i]| > max {
        max := |markers[i]|;
      }
    }
    assert markers[..|markers|] == markers;
  }

  method FirstIn(markers: seq<string>, s: string) returns (found: Option<string>)
    ensures found.Some? <==> AnyOccurs(markers, s)
    ensures found.Some? ==> found.value in markers && Occurs(found.value, s)
  {
    for i := 0 to |markers|
      invariant !AnyOccurs(markers[..i], s)
    {
      if Occurs(markers[i], s) {
        return Some(markers[i]);
      }
      assert markers[..i + 1] == markers[..i] + [markers[i]];
    }
    assert markers[..|markers|] == markers;
    return None;
  }

  /**
   An empty stream holds no marker, not even an empty one. `peak` is the longest carried tail: what is kept between two
   reads is shorter than a marker, whatever the length of the stream.
   */
  method ScanStream(parts: seq<string>, markers: seq<string>) returns (found: Option<string>, ghost peak: nat)
    requires markers != []
    ensures found.Some? <==> Stream(parts) != "" && AnyOccurs(markers, Lower(Stream(parts)))
    ensures found.Some? ==> found.value in markers && Occurs(found.value, Lower(Stream(parts)))
    ensures peak == 0 || exists m <- markers :: peak < |m|
  {
    var maxMarker := LongestMarker(markers);
    var keep := if maxMarker > 1 then maxMarker - 1 else 0;
    var carry, i := "", 0;
    ghost var seen := "";
    peak := 0;
    assert parts[0..] == parts;
    while true
      invariant 0 <= i <= |parts|
      invariant Stream(parts) == seen + Stream(parts[i..])
      invariant seen != "" ==> !AnyOccurs(markers, Lower(seen))
      invariant carry == Tail(Lower(seen), keep)
      invariant peak <= keep
      decreases |parts| - i
    {
      var chunk := if i < |parts| then parts[i] else "";
      if chunk == "" {
        assert Stream(parts) == seen;
        return None, peak;
      }
      ScanStep(parts, markers, i, seen, carry, keep);
      var combined := Lower(carry + chunk);
      found := FirstIn(markers, combined);
      if found.Some? {
        FoundHere(parts, i, seen, carry, keep, found.value);
        assert AnyOccurs(markers, Lower(Stream(parts)));
        return found, peak;
      }
      carry := Tail(combined, keep);
      seen, i := seen + chunk, i + 1;
      peak := if |carry| > peak then |carry| else peak;
    }
  }
}
