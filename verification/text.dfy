/** Text handling the worker applies to process output: joining output
    chunks, removing the `<error>` marker, and truncating crash output. */
module Text {

  /** The in-band marker a submission's error reporting wraps its messages in. */
  const Tag: string := "<error>"

  /** Crash output keeps at most this many output chunks ... */
  const MaxCrashChunks: nat := 50

  /** ... and at most this many characters of each. */
  const MaxChunkWidth: nat := 90

  function Min(a: nat, b: nat): nat
  {
    if a <= b then a else b
  }

  /** The window of `s` starting at `i` spells `t`. */
  predicate OccursAt(s: string, t: string, i: nat)
  {
    i + |t| <= |s| && s[i..i + |t|] == t
  }

  /** `s.includes(t)`: some window of `s` spells `t`. */
  predicate Contains(s: string, t: string)
  {
    exists i: nat | i <= |s| :: OccursAt(s, t, i)
  }

  /** `Array.prototype.join(sep)`: the pieces with `sep` between neighbours;
      the empty array joins to the empty string. */
  function Join(xs: seq<string>, sep: string): (r: string)
    ensures |xs| > 0 ==> xs[0] <= r
    ensures |xs| == 0 ==> r == ""
    decreases |xs|
  {
    if |xs| == 0 then ""
    else if |xs| == 1 then xs[0]
    else
      var init := xs[..|xs| - 1];
      assert init[0] == xs[0];
      Join(init, sep) + sep + xs[|xs| - 1]
  }

  /** A join holds every character of the pieces and one separator between
      each pair of neighbours. */
  lemma {:induction false} JoinTotalLength(xs: seq<string>, sep: string)
    requires |xs| > 0
    ensures |Join(xs, sep)| + |sep| == TotalLength(xs) + |xs| * |sep|
    decreases |xs|
  {
    if |xs| > 1 {
      var init := xs[..|xs| - 1];
      JoinTotalLength(init, sep);
      assert (|xs| - 1) * |sep| + |sep| == |xs| * |sep|;
    }
  }

  /** The number of characters in all the pieces together. */
  function TotalLength(xs: seq<string>): nat
    decreases |xs|
  {
    if |xs| == 0 then 0 else TotalLength(xs[..|xs| - 1]) + |xs[|xs| - 1]|
  }

  /** `output.join("")`: the chunks of a process's output run together. */
  function Concat(xs: seq<string>): (r: string)
    ensures |r| == TotalLength(xs)
    ensures |xs| > 0 ==> xs[0] <= r
  {
    if |xs| > 0 then JoinTotalLength(xs, ""); Join(xs, "") else ""
  }

  /** The last piece is appended to the run of the others. */
  lemma ConcatStep(xs: seq<string>)
    requires |xs| > 0
    ensures Concat(xs) == Concat(xs[..|xs| - 1]) + xs[|xs| - 1]
  {
    if |xs| == 1 {
      assert xs[..0] == [];
    }
  }

  /** Running pieces together distributes over splitting the pieces: the
      result is the pieces' characters, in order, and nothing else. */
  lemma {:induction false} ConcatAppend(a: seq<string>, b: seq<string>)
    ensures Concat(a + b) == Concat(a) + Concat(b)
    decreases |b|
  {
    if |b| == 0 {
      assert a + b == a;
    } else {
      var init := b[..|b| - 1];
      assert (a + b)[..|a + b| - 1] == a + init;
      assert (a + b)[|a + b| - 1] == b[|b| - 1];
      ConcatStep(a + b);
      ConcatStep(b);
      ConcatAppend(a, init);
    }
  }

  /** `s.replace(/<error>/g, "")`: one left-to-right scan that deletes every
      non-overlapping occurrence of the marker it meets. */
  function StripTag(s: string): (r: string)
    ensures |r| <= |s|
    decreases |s|
  {
    if |s| == 0 then ""
    else if Tag <= s then StripTag(s[|Tag|..])
    else [s[0]] + StripTag(s[1..])
  }

  /** `output.slice(0, 50).map(line => line.substring(0, 90))`. */
  function TruncateChunks(chunks: seq<string>): (lines: seq<string>)
    ensures |lines| == Min(|chunks|, MaxCrashChunks)
    ensures forall k :: 0 <= k < |lines| ==>
              && lines[k] <= chunks[k]
              && |lines[k]| == Min(|chunks[k]|, MaxChunkWidth)
  {
    seq(Min(|chunks|, MaxCrashChunks),
        k requires 0 <= k < Min(|chunks|, MaxCrashChunks) =>
          chunks[k][..Min(|chunks[k]|, MaxChunkWidth)])
  }

  /** The runtime error recorded for a crashed test: the truncated chunks
      joined with newlines. No marker removal happens on this path. It is
      at most 50 * 90 + 49 characters long, and no line of it is longer
      than 90 characters. */
  function CrashText(chunks: seq<string>): (r: string)
    ensures |r| <= MaxCrashChunks * MaxChunkWidth + MaxCrashChunks - 1
    ensures LinesAtMost(r, MaxChunkWidth)
  {
    var lines := TruncateChunks(chunks);
    JoinLength(lines);
    JoinLinesAtMost(lines, MaxChunkWidth);
    Join(lines, "\n")
  }

  /** Every newline-free stretch of `t` is at most `w` characters long. */
  predicate LinesAtMost(t: string, w: nat)
  {
    forall i, j :: 0 <= i <= j <= |t| && '\n' !in t[i..j] ==> j - i <= w
  }

  // ---------------------------------------------------------------------
  // Marker removal
  // ---------------------------------------------------------------------

  lemma {:induction false} ContainsTail(s: string, t: string)
    requires |s| > 0 && Contains(s[1..], t)
    ensures Contains(s, t)
  {
    var i: nat :| i <= |s[1..]| && OccursAt(s[1..], t, i);
    assert s[i + 1..i + 1 + |t|] == s[1..][i..i + |t|];
    assert OccursAt(s, t, i + 1);
  }

  /** Text without the marker passes through unchanged. */
  lemma {:induction false} StripTagKeepsTagFree(s: string)
    requires !Contains(s, Tag)
    ensures StripTag(s) == s
    decreases |s|
  {
    if |s| > 0 {
      assert Tag <= s ==> OccursAt(s, Tag, 0);
      assert Contains(s[1..], Tag) ==> Contains(s, Tag) by {
        if Contains(s[1..], Tag) {
          ContainsTail(s, Tag);
        }
      }
      StripTagKeepsTagFree(s[1..]);
    }
  }

  /** Text holding the marker loses at least one occurrence of it. */
  lemma {:induction false} StripTagShortens(s: string)
    requires Contains(s, Tag)
    ensures |StripTag(s)| + |Tag| <= |s|
    decreases |s|
  {
    if !(Tag <= s) {
      var i: nat :| i <= |s| && OccursAt(s, Tag, i);
      assert i != 0;
      assert s[1..][i - 1..i - 1 + |Tag|] == s[i..i + |Tag|];
      assert OccursAt(s[1..], Tag, i - 1);
      StripTagShortens(s[1..]);
    }
  }

  /** Removal changes the text exactly when the text holds the marker. */
  lemma StripTagIdentityIff(s: string)
    ensures StripTag(s) == s <==> !Contains(s, Tag)
  {
    if Contains(s, Tag) {
      StripTagShortens(s);
    } else {
      StripTagKeepsTagFree(s);
    }
  }

  /** A marker between two texts is removed whatever surrounds it: no
      occurrence can start in `a` and run into the inserted marker, since
      the marker's only `<` is its first character. */
  lemma {:induction false} StripTagSplice(a: string, b: string)
    ensures StripTag(a + Tag + b) == StripTag(a) + StripTag(b)
    decreases |a|
  {
    var s := a + Tag + b;
    if |a| == 0 {
      assert s == Tag + b;
      assert Tag <= s;
      assert s[|Tag|..] == b;
    } else if Tag <= a {
      assert s[..|Tag|] == a[..|Tag|];
      assert Tag <= s;
      assert s[|Tag|..] == a[|Tag|..] + Tag + b;
      StripTagSplice(a[|Tag|..], b);
    } else {
      if |a| >= |Tag| {
        assert s[..|Tag|] == a[..|Tag|];
      } else {
        assert s[|a|] == '<';
        assert Tag[|a|] != '<';
      }
      assert !(Tag <= s);
      assert s[1..] == a[1..] + Tag + b;
      StripTagSplice(a[1..], b);
      assert StripTag(s) == [a[0]] + StripTag(a[1..] + Tag + b);
    }
  }

  /** Round trip: joining marker-free pieces with the marker and then
      stripping gives back the pieces run together. */
  lemma {:induction false} StripTagUndoesJoin(ps: seq<string>)
    requires forall k :: 0 <= k < |ps| ==> !Contains(ps[k], Tag)
    ensures StripTag(Join(ps, Tag)) == Concat(ps)
    decreases |ps|
  {
    if |ps| == 1 {
      StripTagKeepsTagFree(ps[0]);
    } else if |ps| > 1 {
      var init, last := ps[..|ps| - 1], ps[|ps| - 1];
      StripTagUndoesJoin(init);
      StripTagSplice(Join(init, Tag), last);
      StripTagKeepsTagFree(last);
      assert Concat(ps) == Concat(init) + "" + last;
    }
  }

  lemma JoinPair(x: string, y: string, sep: string)
    ensures Join([x, y], sep) == x + sep + y
  {
    assert [x, y][..1] == [x];
  }

  /** The single pass can splice a new marker together out of the text
      around a removed one, so stripped text may still hold the marker. */
  lemma StrippedTextMayHoldTag()
    ensures StripTag("<err<error>or>") == Tag
    ensures Contains(StripTag("<err<error>or>"), Tag)
  {
    var ps := ["<err", "or>"];
    JoinPair("<err", "or>", Tag);
    JoinPair("<err", "or>", "");
    assert "<err" + Tag + "or>" == "<err<error>or>";
    assert "<err" + "" + "or>" == Tag;
    StripTagUndoesJoin(ps);
    assert OccursAt(Tag, Tag, 0);
  }

  // ---------------------------------------------------------------------
  // Crash output
  // ---------------------------------------------------------------------

  /** Joining pieces of at most 90 characters with newlines. */
  lemma {:induction false} JoinLength(xs: seq<string>)
    requires forall k :: 0 <= k < |xs| ==> |xs[k]| <= MaxChunkWidth
    ensures |Join(xs, "\n")| + 1 <= |xs| * (MaxChunkWidth + 1) || |xs| == 0
    decreases |xs|
  {
    if |xs| > 1 {
      JoinLength(xs[..|xs| - 1]);
    }
  }

  /** No stretch of a newline-joined text between newlines is longer than
      the longest piece. */
  lemma {:induction false} JoinLinesAtMost(xs: seq<string>, w: nat)
    requires forall k :: 0 <= k < |xs| ==> |xs[k]| <= w
    ensures LinesAtMost(Join(xs, "\n"), w)
    decreases |xs|
  {
    if |xs| == 1 {
      var t := xs[0];
      forall i, j | 0 <= i <= j <= |t| && '\n' !in t[i..j]
        ensures j - i <= w
      {
      }
    } else if |xs| > 1 {
      var init, last := xs[..|xs| - 1], xs[|xs| - 1];
      var u := Join(init, "\n");
      var t := Join(xs, "\n");
      assert t == u + "\n" + last;
      JoinLinesAtMost(init, w);
      forall i, j | 0 <= i <= |u| < j <= |t|
        ensures '\n' in t[i..j]
      {
        assert t[i..j][|u| - i] == '\n';
      }
      forall i, j | 0 <= i <= j <= |t| && '\n' !in t[i..j]
        ensures j - i <= w
      {
        if j <= |u| {
          assert t[i..j] == u[i..j];
        } else if i > |u| {
          assert j - i <= |last|;
        }
      }
    }
  }

  /** Crash output is not scrubbed: a short crash message holding the
      marker is recorded verbatim. */
  lemma CrashTextKeepsShortChunk(c: string)
    requires |c| <= MaxChunkWidth
    ensures CrashText([c]) == c
  {
    assert TruncateChunks([c])[0] == c;
  }
}
