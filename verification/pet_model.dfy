/**
 The pet record and its enumerations, as the store in `src/context/PetContext.tsx`
 builds it: the four-valued colour set of `src/components/PetRenderer.tsx` and a
 `money` field.
 */
module PetModel {
  import opened Wrappers

  datatype PetType = Cat | Dog

  datatype Gender = Male | Female | Other

  datatype PetColor = Base | Black | Brown | WhiteAndBrown

  /** The four fixed places a clothing item can be attached to. */
  datatype Slot = Head | Eyes | Torso | Paws

  /** An item identifier, or None for an empty slot. */
  type ItemId = string

  datatype Clothes = Clothes(head: Option<ItemId>, eyes: Option<ItemId>, torso: Option<ItemId>, paws: Option<ItemId>)
  {
    /** The item worn in `slot`. */
    function Get(slot: Slot): Option<ItemId> {
      match slot
      case Head => head
      case Eyes => eyes
      case Torso => torso
      case Paws => paws
    }
  }

  /** The same outfit with `slot` replaced by `item`: the spread `{...clothes, [slot]: item}`. */
  function Wear(clothes: Clothes, slot: Slot, item: Option<ItemId>): (c: Clothes)
    ensures c.Get(slot) == item
    ensures forall other :: other != slot ==> c.Get(other) == clothes.Get(other)
  {
    match slot
    case Head => clothes.(head := item)
    case Eyes => clothes.(eyes := item)
    case Torso => clothes.(torso := item)
    case Paws => clothes.(paws := item)
  }

  const NoClothes := Clothes(None, None, None, None)

  datatype Pet = Pet(
    id: string,
    name: string,
    petType: PetType,
    gender: Gender,
    color: PetColor,
    hunger: int,
    hygiene: int,
    money: int,
    clothes: Clothes,
    createdAt: int
  )

  /** Upper end of the hunger and hygiene scales. */
  const MaxStat := 100

  function Min(a: int, b: int): int { if a <= b then a else b }

  function Max(a: int, b: int): int { if a >= b then a else b }

  ghost predicate InRange(x: int) { 0 <= x <= MaxStat }

  /** The record invariant the store intends: both stats in [0,100] and no debt. */
  ghost predicate Valid(p: Pet) {
    InRange(p.hunger) && InRange(p.hygiene) && p.money >= 0
  }

  /** The fields no operation after creation may change. */
  ghost predicate SameIdentity(a: Pet, b: Pet) {
    a.id == b.id && a.name == b.name && a.petType == b.petType && a.gender == b.gender
    && a.color == b.color && a.createdAt == b.createdAt
  }

  /** Everything except the hunger and hygiene stats is equal. */
  ghost predicate SameExceptStats(a: Pet, b: Pet) {
    SameIdentity(a, b) && a.money == b.money && a.clothes == b.clothes
  }
}
