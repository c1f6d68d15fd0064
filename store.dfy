/** What the parser fills: _secs, a map from section name to an index, and
    _kvs, the vector of key/value blocks those indices point into, together
    with the flush step that moves a pending block into them (updateVals and
    the loop over the pending headers). */
module ConfigStore {

  /** val: a value's text and where its ':' or '=' stood. */
  datatype Val = Val(val: string, line: nat, pos: nat, file: string)

  /** key_vals: one section's keys. */
  type KeyVals = map<string, Val>

  /** The parser's two fields, _secs and _kvs, as one value. */
  datatype Store = Store(secs: map<string, nat>, kvs: seq<KeyVals>)

  const EmptyStore: Store := Store(map[], [])

  /** Every section name points into _kvs. */
  ghost predicate Indexed(st: Store) {
    forall h :: h in st.secs ==> st.secs[h] < |st.kvs|
  }

  /** No two section names share a block. */
  ghost predicate OneToOne(st: Store) {
    && Indexed(st)
    && (forall h1, h2 :: h1 in st.secs && h2 in st.secs && st.secs[h1] == st.secs[h2] ==> h1 == h2)
  }

  /** _secs maps the section names one-to-one onto the indices of _kvs. */
  ghost predicate Bijective(st: Store) {
    && OneToOne(st)
    && (forall i :: 0 <= i < |st.kvs| ==> i in st.secs.Values)
  }

  /** The sections as a reader sees them: each name with its block. */
  ghost function Sections(st: Store): map<string, KeyVals> {
    map h | h in st.secs && st.secs[h] < |st.kvs| :: st.kvs[st.secs[h]]
  }

  /** updateVals(sec, kvs): every incoming key is written into block sec. */
  function UpdateVals(st: Store, sec: nat, block: KeyVals): (r: Store)
    requires sec < |st.kvs|
    ensures r.secs == st.secs && |r.kvs| == |st.kvs|
    ensures forall i :: 0 <= i < |st.kvs| && i != sec ==> r.kvs[i] == st.kvs[i]
    ensures r.kvs[sec].Keys == st.kvs[sec].Keys + block.Keys
    ensures forall k :: k in block ==> r.kvs[sec][k] == block[k]
    ensures forall k :: k in st.kvs[sec] && k !in block ==> r.kvs[sec][k] == st.kvs[sec][k]
  {
    Store(st.secs, st.kvs[sec := st.kvs[sec] + block])
  }

  /** One pass of the flush loop for header h: an existing section gets
      updateVals, a new one gets index _kvs.size() and a copy of the block. */
  function MergeHeader(st: Store, h: string, block: KeyVals): (r: Store)
    requires Indexed(st)
    ensures Indexed(r)
    ensures h in r.secs
    ensures forall g :: g in st.secs ==> g in r.secs && r.secs[g] == st.secs[g]
    ensures h !in st.secs ==> r.secs[h] == |st.kvs| && r.kvs == st.kvs + [block]
    ensures h in st.secs ==> |r.kvs| == |st.kvs| && r.secs.Keys == st.secs.Keys
  {
    if h in st.secs then
      UpdateVals(st, st.secs[h], block)
    else
      Store(st.secs[h := |st.kvs|], st.kvs + [block])
  }

  /** A new section gets the one index not yet in use. */
  lemma MergeHeaderOneToOne(st: Store, h: string, block: KeyVals)
    requires OneToOne(st)
    ensures OneToOne(MergeHeader(st, h, block))
  {
  }

  /** ... so the index map stays one-to-one and onto. */
  lemma MergeHeaderBijective(st: Store, h: string, block: KeyVals)
    requires Bijective(st)
    ensures Bijective(MergeHeader(st, h, block))
  {
    if h !in st.secs {
      var r := MergeHeader(st, h, block);
      forall i | 0 <= i < |r.kvs| ensures i in r.secs.Values {
        if i < |st.kvs| {
          assert i in st.secs.Values;
          var g :| g in st.secs && st.secs[g] == i;
          assert r.secs[g] == i;
        } else {
          assert r.secs[h] == i;
        }
      }
    }
  }

  /** The loop over the pending headers, in the order the set yields them. */
  function Flush(st: Store, hs: seq<string>, block: KeyVals): (r: Store)
    requires Indexed(st)
    ensures Indexed(r)
    ensures forall g :: g in st.secs ==> g in r.secs && r.secs[g] == st.secs[g]
    ensures forall h :: h in hs ==> h in r.secs
    decreases |hs|
  {
    if hs == [] then st else Flush(MergeHeader(st, hs[0], block), hs[1..], block)
  }

  /** One pass of the flush loop, seen from index i of the header sequence. */
  lemma FlushStep(st: Store, hs: seq<string>, i: nat, block: KeyVals)
    requires Indexed(st) && i < |hs|
    ensures Flush(st, hs[i..], block) == Flush(MergeHeader(st, hs[i], block), hs[i + 1..], block)
  {
    assert hs[i..][1..] == hs[i + 1..];
  }

  lemma {:induction false} FlushBijective(st: Store, hs: seq<string>, block: KeyVals)
    requires Bijective(st)
    ensures Bijective(Flush(st, hs, block))
    decreases |hs|
  {
    if hs != [] {
      MergeHeaderBijective(st, hs[0], block);
      FlushBijective(MergeHeader(st, hs[0], block), hs[1..], block);
    }
  }

  /** Merging into h rewrites h's block and no other section's: the injective
      index map keeps the blocks apart. */
  lemma MergeHeaderSections(st: Store, h: string, block: KeyVals)
    requires OneToOne(st)
    ensures var s0 := Sections(st);
      Sections(MergeHeader(st, h, block)) == s0[h := if h in s0 then s0[h] + block else block]
  {
    if h in st.secs {
      MergeExistingSections(st, h, block);
    } else {
      MergeNewSections(st, h, block);
    }
  }

  lemma MergeExistingSections(st: Store, h: string, block: KeyVals)
    requires OneToOne(st) && h in st.secs
    ensures var s0 := Sections(st);
      Sections(UpdateVals(st, st.secs[h], block)) == s0[h := s0[h] + block]
  {
    var s0 := Sections(st);
    var i := st.secs[h];
    var r := UpdateVals(st, i, block);
    var s1 := Sections(r);
    var expected := s0[h := s0[h] + block];
    forall g | g in expected ensures g in s1 && s1[g] == expected[g] {
      if g != h {
        assert st.secs[g] != i;
      }
    }
    assert s1.Keys == expected.Keys;
  }

  lemma MergeNewSections(st: Store, h: string, block: KeyVals)
    requires OneToOne(st) && h !in st.secs
    ensures Sections(Store(st.secs[h := |st.kvs|], st.kvs + [block])) == Sections(st)[h := block]
  {
    var s0 := Sections(st);
    var n := |st.kvs|;
    var r := Store(st.secs[h := n], st.kvs + [block]);
    var s1 := Sections(r);
    var expected := s0[h := block];
    forall g | g in expected ensures g in s1 && s1[g] == expected[g] {
      if g != h {
        assert r.secs[g] == st.secs[g] < n;
      }
    }
    assert s1.Keys == expected.Keys;
  }

  /** What a flush of the headers hs does to the sections s0, ending in r. */
  ghost predicate FlushedInto(s0: map<string, KeyVals>, hs: seq<string>, block: KeyVals, r: map<string, KeyVals>) {
    && (forall h :: h in r <==> h in s0 || h in hs)
    && (forall h :: h in hs ==> r[h] == if h in s0 then s0[h] + block else block)
    && (forall h :: h in s0 && h !in hs ==> r[h] == s0[h])
  }

  /** The flush as seen through Sections: each header in turn merges the
      pending block into its section. */
  ghost function FlushMap(s0: map<string, KeyVals>, hs: seq<string>, block: KeyVals): map<string, KeyVals>
    decreases |hs|
  {
    if hs == [] then s0
    else FlushMap(s0[hs[0] := if hs[0] in s0 then s0[hs[0]] + block else block], hs[1..], block)
  }

  lemma {:induction false} FlushAsMap(st: Store, hs: seq<string>, block: KeyVals)
    requires OneToOne(st)
    ensures Sections(Flush(st, hs, block)) == FlushMap(Sections(st), hs, block)
    decreases |hs|
  {
    if hs != [] {
      var st1 := MergeHeader(st, hs[0], block);
      assert Flush(st, hs, block) == Flush(st1, hs[1..], block);
      MergeHeaderOneToOne(st, hs[0], block);
      MergeHeaderSections(st, hs[0], block);
      FlushAsMap(st1, hs[1..], block);
    }
  }

  lemma {:induction false} FlushMapInto(s0: map<string, KeyVals>, hs: seq<string>, block: KeyVals)
    ensures FlushedInto(s0, hs, block, FlushMap(s0, hs, block))
    decreases |hs|
  {
    if hs != [] {
      var s1 := s0[hs[0] := if hs[0] in s0 then s0[hs[0]] + block else block];
      FlushMapInto(s1, hs[1..], block);
      FlushedIntoStep(s0, s1, hs[0], hs[1..], block, FlushMap(s0, hs, block));
      assert [hs[0]] + hs[1..] == hs;
    }
  }

  /** The whole flush: every pending header ends up with its old block
      updated by the pending one (or a copy of it when new), and every other
      section keeps its block. */
  lemma FlushSections(st: Store, hs: seq<string>, block: KeyVals)
    requires OneToOne(st)
    ensures FlushedInto(Sections(st), hs, block, Sections(Flush(st, hs, block)))
  {
    FlushAsMap(st, hs, block);
    FlushMapInto(Sections(st), hs, block);
  }

  lemma FlushedIntoStep(s0: map<string, KeyVals>, s1: map<string, KeyVals>, h0: string, rest: seq<string>,
                        block: KeyVals, r: map<string, KeyVals>)
    requires s1 == s0[h0 := if h0 in s0 then s0[h0] + block else block]
    requires FlushedInto(s1, rest, block, r)
    ensures FlushedInto(s0, [h0] + rest, block, r)
  {
    var hs := [h0] + rest;
    var m0 := if h0 in s0 then s0[h0] + block else block;
    forall h ensures h in r <==> h in s0 || h in hs {
      assert h in hs <==> h == h0 || h in rest;
    }
    forall h | h in hs ensures r[h] == if h in s0 then s0[h] + block else block {
      if h in rest {
        if h == h0 {
          assert m0 + block == m0;
        }
      } else {
        assert h == h0;
      }
    }
    forall h | h in s0 && h !in hs ensures r[h] == s0[h] {
      assert h != h0 && h !in rest;
    }
  }

  /** Sections only grow: no section disappears and no key is ever removed. */
  ghost predicate Grows(before: Store, after: Store) {
    forall h :: h in Sections(before) ==>
      h in Sections(after) && Sections(before)[h].Keys <= Sections(after)[h].Keys
  }

  lemma FlushGrows(st: Store, hs: seq<string>, block: KeyVals)
    requires OneToOne(st)
    ensures Grows(st, Flush(st, hs, block))
  {
    FlushSections(st, hs, block);
  }

  lemma GrowsTransitive(a: Store, b: Store, c: Store)
    requires Grows(a, b) && Grows(b, c)
    ensures Grows(a, c)
  {
  }
}
