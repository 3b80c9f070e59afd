/** Sets of peer identifiers as the runtime keeps them: a `BTreeSet` in iteration order, that is,
    a strictly ascending sequence of byte strings.  Every operation refines the one on sets. */
module OrderedIds {
  import opened Bytes

  type PeerId = ByteString

  ghost predicate Ascending(s: seq<PeerId>) {
    forall i, j :: 0 <= i < j < |s| ==> Less(s[i], s[j])
  }

  function Members(s: seq<PeerId>): set<PeerId> {
    set x | x in s
  }

  lemma MembersCons(s: seq<PeerId>)
    requires s != []
    ensures Members(s) == {s[0]} + Members(s[1..])
  {
    assert s == [s[0]] + s[1..];
  }

  /** `BTreeSet::insert`. */
  function Insert(s: seq<PeerId>, x: PeerId): (r: seq<PeerId>)
    requires Ascending(s)
    ensures Ascending(r) && Members(r) == Members(s) + {x}
  {
    if s == [] then [x]
    else if s[0] == x then
      assert x in s;
      s
    else if Less(x, s[0]) then
      assert forall j :: 0 < j < |s| ==> Less(x, s[j]) by {
        forall j | 0 < j < |s| ensures Less(x, s[j]) { LessTransitive(x, s[0], s[j]); }
      }
      [x] + s
    else
      assert Less(s[0], x) by { LessTotal(s[0], x); }
      var rest := Insert(s[1..], x);
      assert forall j :: 0 <= j < |rest| ==> rest[j] in Members(rest);
      MembersCons(s);
      MembersCons([s[0]] + rest);
      [s[0]] + rest
  }

  /** `BTreeSet::remove`. */
  function Remove(s: seq<PeerId>, x: PeerId): (r: seq<PeerId>)
    requires Ascending(s)
    ensures Ascending(r) && Members(r) == Members(s) - {x}
  {
    if s == [] then []
    else
      AscendingHeadIsFresh(s);
      MembersCons(s);
      if s[0] == x then s[1..]
      else
        var rest := Remove(s[1..], x);
        assert forall j :: 0 <= j < |rest| ==> rest[j] in Members(rest);
        MembersCons([s[0]] + rest);
        [s[0]] + rest
  }

  /** `BTreeSet::extend`: every listed element is inserted; also `collect` when `s` is empty. */
  function Extend(s: seq<PeerId>, xs: seq<PeerId>): (r: seq<PeerId>)
    requires Ascending(s)
    ensures Ascending(r) && Members(r) == Members(s) + Members(xs)
    decreases xs
  {
    if xs == [] then s
    else
      MembersCons(xs);
      Extend(Insert(s, xs[0]), xs[1..])
  }

  lemma AscendingHeadIsFresh(s: seq<PeerId>)
    requires Ascending(s) && s != []
    ensures s[0] !in s[1..]
  {
    LessIrreflexive(s[0]);
  }

  /** An ascending sequence has no duplicates: its length is the size of the set. */
  lemma {:induction false} AscendingCount(s: seq<PeerId>)
    requires Ascending(s)
    ensures |Members(s)| == |s|
  {
    if s != [] {
      AscendingHeadIsFresh(s);
      AscendingCount(s[1..]);
      MembersCons(s);
    }
  }

  /** The representation is canonical: one ascending sequence per set. */
  lemma {:induction false} AscendingIsCanonical(s: seq<PeerId>, t: seq<PeerId>)
    requires Ascending(s) && Ascending(t)
    requires Members(s) == Members(t)
    ensures s == t
  {
    assert s == [] <==> Members(s) == {} by { if s != [] { assert s[0] in Members(s); } }
    assert t == [] <==> Members(t) == {} by { if t != [] { assert t[0] in Members(t); } }
    if s != [] {
      HeadIsLeast(s, t);
      AscendingHeadIsFresh(s);
      AscendingHeadIsFresh(t);
      MembersCons(s);
      MembersCons(t);
      AscendingIsCanonical(s[1..], t[1..]);
      assert s == [s[0]] + s[1..] && t == [t[0]] + t[1..];
    }
  }

  lemma HeadIsLeast(s: seq<PeerId>, t: seq<PeerId>)
    requires Ascending(s) && Ascending(t) && s != [] && t != []
    requires Members(s) == Members(t)
    ensures s[0] == t[0]
  {
    assert s[0] in Members(t) && t[0] in Members(s);
    var i :| 0 <= i < |t| && t[i] == s[0];
    var j :| 0 <= j < |s| && s[j] == t[0];
    if i > 0 && j > 0 {
      LessTransitive(s[0], t[0], s[0]);
      LessIrreflexive(s[0]);
    }
  }
}
