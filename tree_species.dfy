/** The species catalog that the simulator and the optimiser share. */
module TreeSpecies {
  import opened Wrappers
  import opened Types

  function Ids(catalog: seq<Species>): (ids: seq<string>)
    ensures |ids| == |catalog|
    ensures forall i :: 0 <= i < |catalog| ==> ids[i] == catalog[i].id
  {
    seq(|catalog|, i requires 0 <= i < |catalog| => catalog[i].id)
  }

  /** What every catalog in the source satisfies: distinct ids and sane parameters. */
  predicate WellFormed(catalog: seq<Species>)
  {
    && (forall i, j :: 0 <= i < j < |catalog| ==> catalog[i].id != catalog[j].id)
    && (forall i :: 0 <= i < |catalog| ==>
          && 0.0 <= catalog[i].shadeTolerance <= 1.0
          && catalog[i].growthRate > 0.0
          && catalog[i].maxRadius > 0.0
          && catalog[i].lifespan > 0)
  }

  /** The six species, in the order that indexes every probability vector. */
  function Catalog(): (c: seq<Species>)
    ensures |c| == 6
    ensures Ids(c) == ["oak", "maple", "hickory", "ash", "linden", "beech"]
    ensures WellFormed(c)
    ensures forall i :: 0 <= i < |c| ==> c[i].foodProductivity.None?
  {
    [ Species("oak", "#ff0000", 0.7, 100.0, 0.43, 200, None),
      Species("maple", "#663399", 0.9, 80.0, 0.45, 400, None),
      Species("hickory", "#008080", 0.8, 60.0, 0.5, 500, None),
      Species("ash", "#ffff00", 0.85, 40.0, 0.5, 150, None),
      Species("linden", "#008000", 0.8, 80.0, 0.5, 150, None),
      Species("beech", "#ffa500", 0.7, 70.0, 0.5, 300, None) ]
  }

  /** `treeSpecies.find(species => species.id === id)`: the first species with that id. */
  function FindSpecies(catalog: seq<Species>, id: string): (r: Option<Species>)
    ensures r.Some? <==> exists i :: 0 <= i < |catalog| && catalog[i].id == id
    ensures r.Some? ==> r.value.id == id && r.value in catalog
  {
    if catalog == [] then None
    else if catalog[0].id == id then Some(catalog[0])
    else
      var r := FindSpecies(catalog[1..], id);
      assert (exists i :: 0 <= i < |catalog| && catalog[i].id == id) ==>
             (exists i :: 0 <= i < |catalog[1..]| && catalog[1..][i].id == id) by {
        if i :| 0 <= i < |catalog| && catalog[i].id == id {
          assert catalog[1..][i - 1].id == id;
        }
      }
      r
  }

  /** In a catalog with distinct ids, the species found for `catalog[i].id` is `catalog[i]`. */
  lemma {:induction false} FindSpeciesAt(catalog: seq<Species>, i: nat)
    requires WellFormed(catalog) && i < |catalog|
    ensures FindSpecies(catalog, catalog[i].id) == Some(catalog[i])
  {
    if i > 0 {
      assert catalog[0].id != catalog[i].id;
      assert WellFormed(catalog[1..]) by {
        forall a, b | 0 <= a < b < |catalog[1..]|
          ensures catalog[1..][a].id != catalog[1..][b].id
        {
          assert catalog[1..][a] == catalog[a + 1] && catalog[1..][b] == catalog[b + 1];
        }
      }
      FindSpeciesAt(catalog[1..], i - 1);
    }
  }

  /** Every tree names a species of the catalog (no lookup in the source fails). */
  predicate KnownSpecies(catalog: seq<Species>, trees: seq<Tree>)
  {
    forall i :: 0 <= i < |trees| ==> FindSpecies(catalog, trees[i].speciesId).Some?
  }

  /** Two lists of known species concatenate to one. */
  lemma KnownAppend(catalog: seq<Species>, a: seq<Tree>, b: seq<Tree>)
    requires KnownSpecies(catalog, a) && KnownSpecies(catalog, b)
    ensures KnownSpecies(catalog, a + b)
  {
    forall i | 0 <= i < |a + b| ensures FindSpecies(catalog, (a + b)[i].speciesId).Some? {
      if i >= |a| {
        assert (a + b)[i] == b[i - |a|];
      }
    }
  }

  /** Known species is a property of the members: a list drawn from a known list is known. */
  lemma KnownSubset(catalog: seq<Species>, a: seq<Tree>, b: seq<Tree>)
    requires KnownSpecies(catalog, b)
    requires forall t :: t in a ==> t in b
    ensures KnownSpecies(catalog, a)
  {
    forall i | 0 <= i < |a|
      ensures FindSpecies(catalog, a[i].speciesId).Some?
    {
      assert a[i] in b;
      var j :| 0 <= j < |b| && b[j] == a[i];
    }
  }
}
