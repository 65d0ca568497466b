/**
 What a finished tree means for sending with it: every symbol that occurs has a code,
 the codes are the canonical ones of the lengths up to the last symbol, and those
 lengths are a complete code.
 */
module BuiltTrees {
  import opened BitOps
  import opened Canonical
  import opened MergeRuns
  import opened BitLengths
  import opened GenBitlen
  import opened BuildTree
  import opened TrimmedCodes

  /** The tree in fc and dl, built from frequencies f, has codes for symbols up to maxCode. */
  ghost predicate Built(fc: seq<nat>, dl: seq<nat>, d: StaticDesc, maxCode: nat, f: seq<nat>) {
    && maxCode < d.elems <= |f| && d.elems <= |fc| && d.elems <= |dl|
    && var lens := dl[..maxCode + 1];
       && (forall k :: 0 <= k < |lens| ==> lens[k] <= d.maxLength <= MAXBITS)
       && Kraft(lens) == Pow2(MAXBITS)
       && lens[maxCode] != 0
       && (forall k: nat :: k < d.elems && f[k] != 0 ==> k <= maxCode && lens[k] != 0)
       && (forall k: nat :: k <= maxCode && lens[k] != 0 ==> fc[k] == RevCode(lens, k))
  }

  ghost predicate NoneBeyond(dl: seq<nat>, d: StaticDesc, maxCode: nat) {
    d.elems <= |dl| && forall k: nat :: maxCode < k < d.elems ==> dl[k] == 0
  }

  /** What `build_tree` promises is what is needed. */
  lemma BuiltByTree(fc: seq<nat>, dl: seq<nat>, cnt: seq<nat>, d: StaticDesc, maxCode: nat, f: seq<nat>, f': seq<nat>,
                    leaves: set<nat>)
    requires ValidDesc(d) && maxCode < d.elems <= |f| && d.elems <= |fc| && d.elems <= |dl| && d.elems <= |f'|
    requires Below(leaves, maxCode + 1) && maxCode in leaves
    requires Forcing(f[..d.elems], f'[..d.elems], Occurring(f, d.elems), leaves)
    requires CompleteCode(dl[..d.elems], cnt, leaves, d.maxLength)
    requires forall k: nat :: k in leaves ==> k < d.elems && fc[k] == RevCode(dl[..d.elems], k)
    ensures Built(fc, dl, d, maxCode, f) && NoneBeyond(dl, d, maxCode)
  {
    hide RevCode, Kraft, Count, KraftOf, Pow2;
    var all, lens := dl[..d.elems], dl[..maxCode + 1];
    assert all[..maxCode + 1] == lens;
    TrimKraft(all, maxCode + 1);
    forall k: nat | k <= maxCode && lens[k] != 0 ensures fc[k] == RevCode(lens, k) {
      assert all[k] == lens[k];
      TrimCode(all, maxCode + 1, k);
    }
    forall k: nat | maxCode < k < d.elems ensures dl[k] == 0 { assert all[k] == dl[k]; }
    forall k: nat | k < d.elems && f[k] != 0 ensures k <= maxCode && lens[k] != 0 {
      assert k in Occurring(f, d.elems);
      assert all[k] != 0;
    }
  }

}
