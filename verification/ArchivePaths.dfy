/** Archive names as lists of segments. Joining and splitting at slashes are inverse on names
    without empty surprises, and the string tests the policies make (equality, a prefix that
    ends in a slash, a prefix that does not) are tests on segments. */
module ArchivePaths {
  import opened Values

  type Path = seq<string>

  predicate NoSlash(p: Path) {
    forall k :: 0 <= k < |p| ==> '/' !in p[k]
  }

  /** One more character: a slash opens a segment, anything else extends the last one. */
  function Grow(p: Path, c: char): (r: Path)
    requires |p| >= 1
    ensures |r| >= 1
  {
    if c == '/' then p + [""] else p[..|p| - 1] + [p[|p| - 1] + [c]]
  }

  function Split(s: string): (p: Path)
    ensures |p| >= 1
  {
    if s == "" then [""] else Grow(Split(s[..|s| - 1]), s[|s| - 1])
  }

  function Join(p: Path): string
    requires |p| >= 1
  {
    if |p| == 1 then p[0] else Join(p[..|p| - 1]) + "/" + p[|p| - 1]
  }

  lemma SplitSnoc(s: string, c: char)
    ensures Split(s + [c]) == Grow(Split(s), c)
  {
    assert (s + [c])[..|s|] == s;
  }

  lemma GrowConcat(a: Path, b: Path, c: char)
    requires |b| >= 1
    ensures Grow(a + b, c) == a + Grow(b, c)
  {
    if c == '/' {
      assert a + b + [""] == a + (b + [""]);
    } else {
      assert (a + b)[..|a + b| - 1] == a + b[..|b| - 1];
      assert a + b[..|b| - 1] + [b[|b| - 1] + [c]] == a + (b[..|b| - 1] + [b[|b| - 1] + [c]]);
    }
  }

  lemma Append(a: string, b: string, c: string)
    ensures a + (b + c) == (a + b) + c
  {
  }

  lemma JoinGrow(p: Path, c: char)
    requires |p| >= 1
    ensures Join(Grow(p, c)) == Join(p) + [c]
  {
    var q, most, last := Grow(p, c), p[..|p| - 1], p[|p| - 1];
    if c == '/' {
      assert q[..|q| - 1] == p;
    } else if |p| == 1 {
      assert q == [last + [c]];
    } else {
      assert q[..|q| - 1] == most && q[|q| - 1] == last + [c];
      Append(Join(most) + "/", last, [c]);
    }
  }

  lemma {:induction false} JoinOfSplit(s: string)
    ensures Join(Split(s)) == s
  {
    if s != "" {
      JoinOfSplit(s[..|s| - 1]);
      JoinGrow(Split(s[..|s| - 1]), s[|s| - 1]);
      assert s == s[..|s| - 1] + [s[|s| - 1]];
    }
  }

  /** Any name without slashes in its segments is what splitting its text gives back. */
  lemma {:induction false} SplitOfJoin(p: Path)
    requires |p| >= 1 && NoSlash(p)
    ensures Split(Join(p)) == p
    decreases |p|, |p[|p| - 1]|
  {
    var most, last := p[..|p| - 1], p[|p| - 1];
    assert p == most + [last];
    if last != "" {
      var shorter := last[..|last| - 1];
      var c, q := last[|last| - 1], most + [shorter];
      assert last == shorter + [c] && c in last;
      assert NoSlash(q) by {
        forall k | 0 <= k < |q| ensures '/' !in q[k] {
          assert k < |most| ==> q[k] == p[k];
        }
      }
      SplitOfJoin(q);
      assert Grow(q, c) == p;
      JoinGrow(q, c);
      SplitSnoc(Join(q), c);
    } else if most != [] {
      SplitOfJoin(most);
      assert Grow(most, '/') == p;
      JoinGrow(most, '/');
      SplitSnoc(Join(most), '/');
    }
  }

  lemma {:induction false} SplitConcat(a: string, b: string)
    ensures Split(a + "/" + b) == Split(a) + Split(b)
  {
    if b == "" {
      SplitSnoc(a, '/');
      assert a + "/" + b == a + ['/'];
    } else {
      var c, most := b[|b| - 1], b[..|b| - 1];
      assert b == most + [c];
      calc {
        Split(a + "/" + b);
      == { assert a + "/" + b == (a + "/" + most) + [c]; SplitSnoc(a + "/" + most, c); }
        Grow(Split(a + "/" + most), c);
      == { SplitConcat(a, most); }
        Grow(Split(a) + Split(most), c);
      == { GrowConcat(Split(a), Split(most), c); }
        Split(a) + Grow(Split(most), c);
      == { SplitSnoc(most, c); }
        Split(a) + Split(b);
      }
    }
  }

  lemma {:induction false} JoinConcat(t: Path, u: Path)
    requires |t| >= 1 && |u| >= 1
    ensures Join(t + u) == Join(t) + "/" + Join(u)
    decreases |u|
  {
    assert (t + u)[..|t + u| - 1] == t + u[..|u| - 1];
    if |u| == 1 {
      assert t + u[..0] == t;
    } else {
      JoinConcat(t, u[..|u| - 1]);
    }
  }

  predicate Under(root: Path, p: Path) {
    |root| < |p| && root == p[..|root|]
  }

  lemma SlashPrefixSplits(root: Path, p: Path)
    requires |root| >= 1 && |p| >= 1 && NoSlash(root) && NoSlash(p)
    requires Join(root) + "/" <= Join(p)
    ensures Under(root, p)
  {
    var rest := Join(p)[|Join(root)| + 1..];
    assert Join(p) == Join(root) + "/" + rest;
    SplitConcat(Join(root), rest);
    SplitOfJoin(root);
    SplitOfJoin(p);
  }

  /** `startsWith(root + "/")` holds of exactly the paths strictly under `root`. */
  lemma SlashPrefixIsUnder(root: Path, p: Path)
    requires |root| >= 1 && |p| >= 1 && NoSlash(root) && NoSlash(p)
    ensures Join(root) + "/" <= Join(p) <==> Under(root, p)
  {
    if Under(root, p) {
      JoinConcat(root, p[|root|..]);
      assert p == root + p[|root|..];
    }
    if Join(root) + "/" <= Join(p) {
      SlashPrefixSplits(root, p);
    }
  }

  /** A path whose segments are those of `root`, but for a longer text in place of the last. */
  predicate Resembles(root: Path, p: Path) {
    1 <= |root| <= |p| && root[..|root| - 1] == p[..|root| - 1] && root[|root| - 1] <= p[|root| - 1]
  }

  lemma JoinStart(p: Path)
    requires |p| >= 1
    ensures p[0] <= Join(p) && (|p| > 1 ==> p[0] + "/" <= Join(p))
  {
    if |p| > 1 {
      JoinConcat(p[..1], p[1..]);
      assert p == p[..1] + p[1..];
    }
  }

  /** A text without slashes starts a joined name when it starts the first segment. */
  lemma FirstSegmentPrefix(p: Path, text: string)
    requires |p| >= 1 && '/' !in text
    ensures text <= Join(p) <==> text <= p[0]
  {
    JoinStart(p);
    assert |p| > 1 ==> Join(p)[|p[0]|] == '/';
  }

  /** `startsWith(root)`, without the slash, also holds of longer last segments. */
  lemma PlainPrefixIsResembles(root: Path, p: Path)
    requires |root| >= 2 && |p| >= 1 && NoSlash(root) && NoSlash(p)
    ensures Join(root) <= Join(p) <==> Resembles(root, p)
  {
    var parent, last := root[..|root| - 1], root[|root| - 1];
    SlashPrefixIsUnder(parent, p);
    if Join(root) <= Join(p) {
      assert Join(parent) + "/" <= Join(root);
    }
    if Under(parent, p) {
      var rest := p[|parent|..];
      JoinConcat(parent, rest);
      assert p == parent + rest;
      FirstSegmentPrefix(rest, last);
      PrefixCancel(Join(parent) + "/", last, Join(rest));
    }
  }

  lemma PrefixCancel(a: string, b: string, c: string)
    ensures a + b <= a + c <==> b <= c
  {
    if a + b <= a + c {
      assert (a + c)[..|a + b|] == a + b;
      assert c[..|b|] == (a + c)[|a|..|a + b|];
      assert b == (a + b)[|a|..];
    }
    if b <= c {
      assert a + c == a + b + c[|b|..];
    }
  }

  // ------------------------------------------------------------ canonical names

  predicate PlainSegment(s: string) { s != "" && s != "." && s != ".." }

  /** The archive verifier's canonical names. */
  predicate Canonical(p: Path) {
    |p| >= 1 && NoSlash(p) && forall k :: 0 <= k < |p| ==> PlainSegment(p[k]) && '\\' !in p[k]
  }

  predicate NoNul(p: Path) {
    forall k :: 0 <= k < |p| ==> '\0' !in p[k]
  }

  /** The host's relative paths; a lone dot passes, because it has no parts. */
  predicate SafeRel(p: Path) {
    p == ["."] || (|p| >= 1 && NoSlash(p) && forall k :: 0 <= k < |p| ==> PlainSegment(p[k]) && '\\' !in p[k] && '\0' !in p[k])
  }

  function Ancestors(p: Path): set<Path> {
    set k | 1 <= k < |p| :: p[..k]
  }

  /** Where a file system goes for a name: an empty segment or a dot stays, two dots go up, and
      None is above the start. */
  function Walk(p: Path): (r: Option<Path>)
    ensures r.Some? ==> |r.value| <= |p|
  {
    if p == [] then Some([])
    else
      var above, segment := Walk(p[..|p| - 1]), p[|p| - 1];
      if above.None? || segment == "" || segment == "." then above
      else if segment != ".." then Some(above.value + [segment])
      else if above.value == [] then None
      else Some(above.value[..|above.value| - 1])
  }

  /** Plain segments are exactly those of names that lead where they say, one level for each. */
  lemma {:induction false} PlainWalks(p: Path)
    ensures (forall k :: 0 <= k < |p| ==> PlainSegment(p[k])) <==> Walk(p) == Some(p)
  {
    if p != [] {
      var most, segment := p[..|p| - 1], p[|p| - 1];
      PlainWalks(most);
      assert p == most + [segment];
      assert forall k :: 0 <= k < |most| ==> p[k] == most[k];
      if Walk(p) == Some(p) { assert Walk(most) == Some(p[..|p| - 1]); }
    }
  }

  /** The host takes exactly the names that the agent takes and that hold no NUL, and a lone dot. */
  lemma SafeIsCanonical(p: Path)
    ensures SafeRel(p) <==> p == ["."] || (Canonical(p) && NoNul(p))
  {
  }
}
