/** How the note map is filled: what each tick's bucket holds once the notes are placed. */
module AbcBarFacts {
  import opened Wrappers
  import opened NotedTypes
  import opened Numerals
  import opened Positions
  import opened CommonMeasure
  import opened AbcBar
  import opened CommonMeasureFacts

  // ------------------------------------------------------------------ buckets

  lemma RealEntriesOfEntries(fs: seq<Fragment>)
    ensures RealEntries(Entries(fs)) == Entries(fs)
    decreases |fs|
  {
    if |fs| > 0 {
      assert Entries(fs)[1..] == Entries(fs[1..]);
      RealEntriesOfEntries(fs[1..]);
      assert Entries(fs) == [Frag(fs[0])] + Entries(fs[1..]);
    }
  }

  /** Without the placeholder, a bucket is the fragments that arrived at its tick. */
  lemma RealEntriesOfBucket(ps: seq<Position>, rs: seq<Option<Fragment>>, offset: nat, t: int)
    requires |ps| == |rs|
    ensures RealEntries(Bucket(ps, rs, offset, t)) == Entries(Arrivals(ps, rs, offset, t))
  {
    var a := Arrivals(ps, rs, offset, t);
    if |a| > 0 {
      RealEntriesOfEntries(a);
    } else if AnyLands(ps, offset, t) {
      assert RealEntries([Empty]) == [] + RealEntries([]);
    }
  }

  lemma ArrivalsStep(ps: seq<Position>, rs: seq<Option<Fragment>>, offset: nat, t: int, k: nat)
    requires k < |ps| == |rs|
    ensures Arrivals(ps[..k + 1], rs[..k + 1], offset, t) ==
              Arrivals(ps[..k], rs[..k], offset, t) + (if LandsOn(ps[k], offset, t) && rs[k].Some? then [rs[k].value] else [])
    ensures AnyLands(ps[..k + 1], offset, t) <==> AnyLands(ps[..k], offset, t) || LandsOn(ps[k], offset, t)
  {
    assert ps[..k + 1][..k] == ps[..k];
    assert rs[..k + 1][..k] == rs[..k];
    if LandsOn(ps[k], offset, t) {
      assert ps[..k + 1][k] == ps[k];
    }
    if AnyLands(ps[..k], offset, t) {
      var j :| 0 <= j < k && LandsOn(ps[..k][j], offset, t);
      assert ps[..k + 1][j] == ps[..k][j];
    }
    if AnyLands(ps[..k + 1], offset, t) && !LandsOn(ps[k], offset, t) {
      var j :| 0 <= j < k + 1 && LandsOn(ps[..k + 1][j], offset, t);
      assert j < k && ps[..k][j] == ps[..k + 1][j];
    }
  }

  /**
   * Placing note k changes only the bucket it lands on: a resolved note is
   * appended after the fragments already there, with the placeholder removed;
   * a note that does not resolve leaves the placeholder on an otherwise empty
   * tick and changes nothing else.
   */
  lemma BucketStep(ps: seq<Position>, rs: seq<Option<Fragment>>, offset: nat, t: int, k: nat)
    requires k < |ps| == |rs|
    ensures var before := Bucket(ps[..k], rs[..k], offset, t);
            Bucket(ps[..k + 1], rs[..k + 1], offset, t) ==
              if LandsOn(ps[k], offset, t) then Push(before, rs[k]) else before
  {
    ArrivalsStep(ps, rs, offset, t, k);
    RealEntriesOfBucket(ps[..k], rs[..k], offset, t);
    var a := Arrivals(ps[..k], rs[..k], offset, t);
    if LandsOn(ps[k], offset, t) && rs[k].Some? {
      assert Entries(a + [rs[k].value]) == Entries(a) + [Frag(rs[k].value)];
    }
  }

  /** With no note placed, every bucket is empty. */
  lemma NoNotesNoBucket(offset: nat, t: int)
    ensures Bucket([], [], offset, t) == []
  {
  }

  /** Every fragment that arrives at a tick is the resolution of some note. */
  lemma {:induction false} ArrivalsAreResolved(ps: seq<Position>, rs: seq<Option<Fragment>>, offset: nat, t: int)
    requires |ps| == |rs|
    ensures forall k :: 0 <= k < |Arrivals(ps, rs, offset, t)| ==>
              exists j :: 0 <= j < |rs| && rs[j] == Some(Arrivals(ps, rs, offset, t)[k])
    decreases |ps|
  {
    if |ps| > 0 {
      var n := |ps| - 1;
      ArrivalsAreResolved(ps[..n], rs[..n], offset, t);
      var a := Arrivals(ps[..n], rs[..n], offset, t);
      forall k | 0 <= k < |a| ensures exists j :: 0 <= j < |rs| && rs[j] == Some(a[k]) {
        var j :| 0 <= j < |rs[..n]| && rs[..n][j] == Some(a[k]);
        assert rs[j] == rs[..n][j];
      }
      assert ps[..n] == ps[..|ps| - 1] && rs[..n] == rs[..|rs| - 1];
      var all := Arrivals(ps, rs, offset, t);
      forall k | 0 <= k < |all| ensures exists j :: 0 <= j < |rs| && rs[j] == Some(all[k]) {
        if k < |a| {
          assert all[k] == a[k];
        } else {
          assert rs[n] == Some(all[k]);
        }
      }
    } else {
      assert Arrivals(ps, rs, offset, t) == [];
    }
  }

  /**
   * Two notes without a common grid make buildAbcBar throw: an eighth of 3:2
   * and an eighth of 5:4 leave findCommonMeasure with nothing to answer.
   */
  lemma MixedTupletsHaveNoBar(a: string, b: string)
    ensures var notes := [Note(a, None, MixedTuplets()[0], None, None), Note(b, None, MixedTuplets()[1], None, None)];
      SharedGrid(notes, 4) == Failure(NoCommonMeasure)
      && BarText(notes, [None, None], 4, 0, 4) == Failure(NoCommonMeasure)
  {
    var notes := [Note(a, None, MixedTuplets()[0], None, None), Note(b, None, MixedTuplets()[1], None, None)];
    assert NotePositions(notes) == MixedTuplets();
    MixedTupletsHaveNoCommonMeasure();
  }
}
