/**
 The static clothing catalog of `src/data/clothingItems.ts` and its one query,
 `getItemsBySlot`. The image asset of each entry is left out.
 */
module Clothing {
  import opened Wrappers
  import opened PetModel

  datatype ClothingItem = ClothingItem(id: ItemId, slot: Slot, assetKey: string, name: string)

  const HeadSection: seq<ClothingItem> := [
    ClothingItem("hat_red", Head, "hat_red", "Chapéu Vermelho"),
    ClothingItem("hat_blue", Head, "hat_blue", "Chapéu Azul"),
    ClothingItem("crown", Head, "crown", "Coroa")
  ]

  const EyesSection: seq<ClothingItem> := [
    ClothingItem("eyes_big", Eyes, "eyes_big", "Olhos Grandes"),
    ClothingItem("eyes_star", Eyes, "eyes_star", "Olhos Estrela"),
    ClothingItem("glasses", Eyes, "glasses", "Óculos")
  ]

  const TorsoSection: seq<ClothingItem> := [
    ClothingItem("shirt_blue", Torso, "shirt_blue", "Camiseta Azul"),
    ClothingItem("shirt_red", Torso, "shirt_red", "Camiseta Vermelha"),
    ClothingItem("dress_pink", Torso, "dress_pink", "Vestido Rosa")
  ]

  const PawsSection: seq<ClothingItem> := [
    ClothingItem("paws_boots", Paws, "paws_boots", "Botas"),
    ClothingItem("paws_socks", Paws, "paws_socks", "Meias")
  ]

  /** `CLOTHING_ITEMS`, in its order: the head, eyes, torso and paws sections. */
  const Catalog: seq<ClothingItem> := HeadSection + EyesSection + TorsoSection + PawsSection

  /** The items of `items` that go in `slot`, in their original order. */
  function FilterBySlot(items: seq<ClothingItem>, slot: Slot): (r: seq<ClothingItem>)
    ensures |r| <= |items|
    ensures forall k :: 0 <= k < |r| ==> r[k].slot == slot
    decreases |items|
  {
    if |items| == 0 then []
    else if items[0].slot == slot then [items[0]] + FilterBySlot(items[1..], slot)
    else FilterBySlot(items[1..], slot)
  }

  /** `getItemsBySlot`: the catalog items that go in `slot`, in catalog order. */
  function GetItemsBySlot(slot: Slot): (r: seq<ClothingItem>)
    ensures |r| <= |Catalog|
    ensures forall k :: 0 <= k < |r| ==> r[k].slot == slot
  {
    FilterBySlot(Catalog, slot)
  }

  /** The first item with `id`, as `Array.prototype.find` returns it. */
  function FindById(items: seq<ClothingItem>, id: ItemId): (r: Option<ClothingItem>)
    ensures r.Some? ==> r.value in items && r.value.id == id
    ensures r.None? ==> forall k :: 0 <= k < |items| ==> items[k].id != id
    ensures r.Some? ==> exists k :: 0 <= k < |items| && items[k] == r.value && forall j :: 0 <= j < k ==> items[j].id != id
    decreases |items|
  {
    if |items| == 0 then None
    else if items[0].id == id then Some(items[0])
    else FindById(items[1..], id)
  }

  // ---------------------------------------------------------------------------
  // Laws

  /** The filter keeps exactly the items of the slot, and nothing else. */
  lemma {:induction false} FilterBySlotSound(items: seq<ClothingItem>, slot: Slot)
    ensures |FilterBySlot(items, slot)| <= |items|
    ensures forall k :: 0 <= k < |FilterBySlot(items, slot)| ==> FilterBySlot(items, slot)[k].slot == slot
    ensures forall x :: x in FilterBySlot(items, slot) <==> x in items && x.slot == slot
    decreases |items|
  {
    if |items| > 0 {
      FilterBySlotSound(items[1..], slot);
      assert items == [items[0]] + items[1..];
    }
  }

  /** Filtering a concatenation filters each part in turn, which is what keeps catalog order. */
  lemma {:induction false} FilterAppend(a: seq<ClothingItem>, b: seq<ClothingItem>, slot: Slot)
    ensures FilterBySlot(a + b, slot) == FilterBySlot(a, slot) + FilterBySlot(b, slot)
    decreases |a|
  {
    if |a| == 0 {
      assert a + b == b;
    } else {
      assert (a + b)[0] == a[0];
      assert (a + b)[1..] == a[1..] + b;
      FilterAppend(a[1..], b, slot);
    }
  }

  /** A list all of whose items go in `slot` passes the filter whole. */
  lemma {:induction false} FilterAllMatch(items: seq<ClothingItem>, slot: Slot)
    requires forall k :: 0 <= k < |items| ==> items[k].slot == slot
    ensures FilterBySlot(items, slot) == items
    decreases |items|
  {
    if |items| > 0 {
      FilterAllMatch(items[1..], slot);
      assert [items[0]] + items[1..] == items;
    }
  }

  /** A list none of whose items go in `slot` filters to nothing. */
  lemma {:induction false} FilterNoneMatch(items: seq<ClothingItem>, slot: Slot)
    requires forall k :: 0 <= k < |items| ==> items[k].slot != slot
    ensures FilterBySlot(items, slot) == []
    decreases |items|
  {
    if |items| > 0 {
      FilterNoneMatch(items[1..], slot);
    }
  }

  /** The number of items in each of the four slots adds up to the length of the list. */
  lemma {:induction false} SlotsPartition(items: seq<ClothingItem>)
    ensures |FilterBySlot(items, Head)| + |FilterBySlot(items, Eyes)|
            + |FilterBySlot(items, Torso)| + |FilterBySlot(items, Paws)| == |items|
    decreases |items|
  {
    if |items| > 0 {
      SlotsPartition(items[1..]);
    }
  }

  /** Every catalog item is returned by exactly one slot query. */
  lemma SlotQueriesDisjoint(x: ClothingItem, s1: Slot, s2: Slot)
    requires x in GetItemsBySlot(s1) && x in GetItemsBySlot(s2)
    ensures s1 == s2
  {
    FilterBySlotSound(Catalog, s1);
    FilterBySlotSound(Catalog, s2);
  }

  /** `getItemsBySlot(s)` returns the catalog items whose slot is `s`, and no others. */
  lemma GetItemsBySlotExact(slot: Slot)
    ensures forall k :: 0 <= k < |GetItemsBySlot(slot)| ==> GetItemsBySlot(slot)[k].slot == slot
    ensures forall x :: x in GetItemsBySlot(slot) <==> x in Catalog && x.slot == slot
  {
    FilterBySlotSound(Catalog, slot);
  }

  /** The catalog query filters each section in turn. */
  lemma CatalogSections(slot: Slot)
    ensures GetItemsBySlot(slot)
            == FilterBySlot(HeadSection, slot) + FilterBySlot(EyesSection, slot)
               + FilterBySlot(TorsoSection, slot) + FilterBySlot(PawsSection, slot)
  {
    FilterAppend(HeadSection, EyesSection, slot);
    FilterAppend(HeadSection + EyesSection, TorsoSection, slot);
    FilterAppend(HeadSection + EyesSection + TorsoSection, PawsSection, slot);
  }

  /** Each slot query returns exactly its section of the catalog. */
  lemma HeadQuery()
    ensures GetItemsBySlot(Head) == HeadSection
  {
    CatalogSections(Head);
    FilterAllMatch(HeadSection, Head);
    FilterNoneMatch(EyesSection, Head);
    FilterNoneMatch(TorsoSection, Head);
    FilterNoneMatch(PawsSection, Head);
  }

  lemma EyesQuery()
    ensures GetItemsBySlot(Eyes) == EyesSection
  {
    CatalogSections(Eyes);
    FilterNoneMatch(HeadSection, Eyes);
    FilterAllMatch(EyesSection, Eyes);
    FilterNoneMatch(TorsoSection, Eyes);
    FilterNoneMatch(PawsSection, Eyes);
  }

  lemma TorsoQuery()
    ensures GetItemsBySlot(Torso) == TorsoSection
  {
    CatalogSections(Torso);
    FilterNoneMatch(HeadSection, Torso);
    FilterNoneMatch(EyesSection, Torso);
    FilterAllMatch(TorsoSection, Torso);
    FilterNoneMatch(PawsSection, Torso);
  }

  lemma PawsQuery()
    ensures GetItemsBySlot(Paws) == PawsSection
  {
    CatalogSections(Paws);
    FilterNoneMatch(HeadSection, Paws);
    FilterNoneMatch(EyesSection, Paws);
    FilterNoneMatch(TorsoSection, Paws);
    FilterAllMatch(PawsSection, Paws);
  }

  /** The four slot queries split the eleven catalog items 3, 3, 3 and 2. */
  lemma CatalogSlotCounts()
    ensures |GetItemsBySlot(Head)| == 3 && |GetItemsBySlot(Eyes)| == 3
    ensures |GetItemsBySlot(Torso)| == 3 && |GetItemsBySlot(Paws)| == 2
    ensures |GetItemsBySlot(Head)| + |GetItemsBySlot(Eyes)| + |GetItemsBySlot(Torso)| + |GetItemsBySlot(Paws)|
            == |Catalog| == 11
  {
    HeadQuery();
    EyesQuery();
    TorsoQuery();
    PawsQuery();
  }

  ghost predicate DistinctIds(items: seq<ClothingItem>) {
    forall j, k :: 0 <= j < k < |items| ==> items[j].id != items[k].id
  }

  /** No two catalog items share an id. */
  lemma CatalogIdsDistinct()
    ensures DistinctIds(Catalog)
  {
  }

  /** With distinct ids, a lookup by id finds the one item that has it. */
  lemma {:induction false} FindByIdUnique(items: seq<ClothingItem>, k: int)
    requires DistinctIds(items) && 0 <= k < |items|
    ensures FindById(items, items[k].id) == Some(items[k])
    decreases |items|
  {
    if k > 0 {
      assert items[0].id != items[k].id;
      FindByIdUnique(items[1..], k - 1);
    }
  }
}
