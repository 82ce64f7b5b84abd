/**
 * The service notices an operator can attach to an announcement. The
 * selection is a list in the order the notices were switched on, used as a set.
 */
module Notices {
  import opened Seqs

  const SpecialNotices: seq<string> := [
    "Rijdt niet", "Vertraging", "Gedeeltelijk opgeheven", "Rijdt via andere route",
    "Extra trein", "Minder wagons", "Stopt niet op alle stations", "Vervangend vervoer",
    "Aanrijding persoon", "Aanrijding dier", "Aanrijding voertuig", "Wisselstoring",
    "Defecte trein", "Weersomstandigheden", "Seinsstoring", "Defecte bovenleiding"
  ]

  /** Switch `notice` off when it is selected, otherwise append it at the end. */
  function Toggle(selected: seq<string>, notice: string): (r: seq<string>)
    ensures notice in r <==> notice !in selected
    ensures forall n :: n != notice ==> (n in r <==> n in selected)
  {
    if notice in selected then RemoveAll(selected, notice) else selected + [notice]
  }

  /**
   * Toggling flips the membership of `notice` and of nothing else. A notice
   * switched on goes at the end; one switched off is taken out with the
   * order of the others kept.
   */
  lemma ToggleFlipsOne(selected: seq<string>, notice: string)
    ensures notice in Toggle(selected, notice) <==> notice !in selected
    ensures forall n :: n != notice ==> (n in Toggle(selected, notice) <==> n in selected)
    ensures notice !in selected ==> Toggle(selected, notice) == selected + [notice]
    ensures notice in selected ==>
      IsSubsequence(Toggle(selected, notice), selected)
      && multiset(Toggle(selected, notice)) == multiset(selected)[notice := 0]
  {
    RemoveAllKeepsOthers(selected, notice);
  }

  /** Switching a notice on and then off again restores the selection exactly. */
  lemma ToggleTwiceRestores(selected: seq<string>, notice: string)
    requires notice !in selected
    ensures Toggle(Toggle(selected, notice), notice) == selected
  {
    RemoveAllAppend(selected, [notice], notice);
    RemoveAllAbsent(selected, notice);
    assert RemoveAll([notice], notice) == [];
  }

  /** A selection without duplicates keeps having none. */
  lemma ToggleKeepsNoDuplicates(selected: seq<string>, notice: string)
    requires NoDuplicates(selected)
    ensures NoDuplicates(Toggle(selected, notice))
  {
    if notice in selected {
      RemoveAllNoDuplicates(selected, notice);
    } else {
      var r := selected + [notice];
      forall i, j | 0 <= i < j < |r| ensures r[i] != r[j] {
        if j == |selected| { assert r[i] in selected; }
      }
    }
  }

  /** The catalog lists every notice once. */
  lemma CatalogHasNoDuplicates()
    ensures NoDuplicates(SpecialNotices)
  {
  }
}
