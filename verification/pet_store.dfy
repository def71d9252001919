/**
 The pure state transitions of the pet store (`src/context/PetContext.tsx`).
 The store holds at most one pet, so each operation maps `Option<Pet>` to
 `Option<Pet>`; the asynchronous write that follows every transition belongs to
 the Storage module. The id generator and the clock are parameters.
 */
module PetStore {
  import opened Wrappers
  import opened PetModel

  /** Default amounts of `feed()` and `bathe()` when the caller passes none. */
  const DefaultFeedAmount := 25
  const DefaultBatheAmount := 30
  /** Hunger that one play session costs. */
  const PlayCost := 20
  /** Hunger that one bath costs. */
  const BatheHungerCost := 10
  /** Hunger and hygiene lost per decay tick (one tick a minute). */
  const DecayPerTick := 1

  /** A brand new pet: full stats, no money, nothing worn. */
  function CreatePet(id: string, name: string, petType: PetType, gender: Gender, color: PetColor, now: int): (r: Option<Pet>)
    ensures r.Some?
    ensures r.value.id == id && r.value.name == name && r.value.petType == petType
    ensures r.value.gender == gender && r.value.color == color && r.value.createdAt == now
    ensures r.value.hunger == MaxStat && r.value.hygiene == MaxStat && r.value.money == 0
    ensures forall s :: r.value.clothes.Get(s) == None
    ensures Valid(r.value)
  {
    Some(Pet(id, name, petType, gender, color, MaxStat, MaxStat, 0, NoClothes, now))
  }

  function Feed(pet: Option<Pet>, amount: int): (r: Option<Pet>)
    ensures pet.None? <==> r.None?
    ensures pet.Some? ==> SameExceptStats(pet.value, r.value) && r.value.hygiene == pet.value.hygiene
    // the new hunger is the old one plus `amount`, cut off at the top of the scale
    ensures pet.Some? ==> r.value.hunger <= MaxStat && r.value.hunger <= pet.value.hunger + amount
    ensures pet.Some? ==> r.value.hunger == MaxStat || r.value.hunger == pet.value.hunger + amount
    ensures pet.Some? && amount >= 0 && Valid(pet.value) ==> Valid(r.value)
  {
    match pet
    case None => None
    case Some(p) => Some(p.(hunger := Min(MaxStat, p.hunger + amount)))
  }

  function Play(pet: Option<Pet>): (r: Option<Pet>)
    ensures pet.None? <==> r.None?
    ensures pet.Some? ==> SameExceptStats(pet.value, r.value) && r.value.hygiene == pet.value.hygiene
    ensures pet.Some? ==> r.value.hunger >= 0 && r.value.hunger >= pet.value.hunger - PlayCost
    ensures pet.Some? ==> r.value.hunger == 0 || r.value.hunger == pet.value.hunger - PlayCost
    ensures pet.Some? && Valid(pet.value) ==> Valid(r.value)
  {
    match pet
    case None => None
    case Some(p) => Some(p.(hunger := Max(0, p.hunger - PlayCost)))
  }

  function Bathe(pet: Option<Pet>, amount: int): (r: Option<Pet>)
    ensures pet.None? <==> r.None?
    ensures pet.Some? ==> SameExceptStats(pet.value, r.value)
    ensures pet.Some? ==> r.value.hygiene <= MaxStat && r.value.hygiene <= pet.value.hygiene + amount
    ensures pet.Some? ==> r.value.hygiene == MaxStat || r.value.hygiene == pet.value.hygiene + amount
    ensures pet.Some? ==> r.value.hunger >= 0 && r.value.hunger >= pet.value.hunger - BatheHungerCost
    ensures pet.Some? ==> r.value.hunger == 0 || r.value.hunger == pet.value.hunger - BatheHungerCost
    ensures pet.Some? && amount >= 0 && Valid(pet.value) ==> Valid(r.value)
  {
    match pet
    case None => None
    case Some(p) =>
      Some(p.(hygiene := Min(MaxStat, p.hygiene + amount), hunger := Max(0, p.hunger - BatheHungerCost)))
  }

  /** Puts `item` (or nothing) in one slot; the item is not checked against the catalog. */
  function SetClothing(pet: Option<Pet>, slot: Slot, item: Option<ItemId>): (r: Option<Pet>)
    ensures pet.None? <==> r.None?
    ensures pet.Some? ==> SameIdentity(pet.value, r.value)
    ensures pet.Some? ==> r.value.hunger == pet.value.hunger && r.value.hygiene == pet.value.hygiene
    ensures pet.Some? ==> r.value.money == pet.value.money
    ensures pet.Some? ==> r.value.clothes.Get(slot) == item
    ensures pet.Some? ==> forall other :: other != slot ==> r.value.clothes.Get(other) == pet.value.clothes.Get(other)
  {
    match pet
    case None => None
    case Some(p) => Some(p.(clothes := Wear(p.clothes, slot, item)))
  }

  function EarnMoney(pet: Option<Pet>, amount: int): (r: Option<Pet>)
    ensures pet.None? <==> r.None?
    ensures pet.Some? ==> SameIdentity(pet.value, r.value) && r.value.clothes == pet.value.clothes
    ensures pet.Some? ==> r.value.hunger == pet.value.hunger && r.value.hygiene == pet.value.hygiene
    ensures pet.Some? ==> r.value.money - pet.value.money == amount
    ensures pet.Some? && amount >= 0 && Valid(pet.value) ==> Valid(r.value)
  {
    match pet
    case None => None
    case Some(p) => Some(p.(money := p.money + amount))
  }

  /** Removing always leaves the store without a pet, whatever it held. */
  function RemovePet(pet: Option<Pet>): (r: Option<Pet>)
    ensures r.None?
  {
    None
  }

  /** The body of the once-a-minute decay timer. */
  function DecayTick(pet: Option<Pet>): (r: Option<Pet>)
    ensures pet.None? <==> r.None?
    ensures pet.Some? ==> SameExceptStats(pet.value, r.value)
    ensures pet.Some? ==> r.value.hunger >= 0 && r.value.hunger >= pet.value.hunger - DecayPerTick
    ensures pet.Some? ==> r.value.hunger == 0 || r.value.hunger == pet.value.hunger - DecayPerTick
    ensures pet.Some? ==> r.value.hygiene >= 0 && r.value.hygiene >= pet.value.hygiene - DecayPerTick
    ensures pet.Some? ==> r.value.hygiene == 0 || r.value.hygiene == pet.value.hygiene - DecayPerTick
    ensures pet.Some? && Valid(pet.value) ==> Valid(r.value)
  {
    match pet
    case None => None
    case Some(p) =>
      Some(p.(hunger := Max(0, p.hunger - DecayPerTick), hygiene := Max(0, p.hygiene - DecayPerTick)))
  }

  // ---------------------------------------------------------------------------
  // Laws relating several calls

  /** Two deposits are one deposit of the sum. */
  lemma EarnMoneyAdditive(pet: Option<Pet>, a: int, b: int)
    ensures EarnMoney(EarnMoney(pet, a), b) == EarnMoney(pet, a + b)
  {
  }

  /** Setting a slot twice to the same item is setting it once. */
  lemma SetClothingIdempotent(pet: Option<Pet>, slot: Slot, item: Option<ItemId>)
    ensures SetClothing(SetClothing(pet, slot, item), slot, item) == SetClothing(pet, slot, item)
  {
  }

  /** Changes to two different slots do not interfere, so their order does not matter. */
  lemma SetClothingCommutes(pet: Option<Pet>, s1: Slot, x1: Option<ItemId>, s2: Slot, x2: Option<ItemId>)
    requires s1 != s2
    ensures SetClothing(SetClothing(pet, s1, x1), s2, x2) == SetClothing(SetClothing(pet, s2, x2), s1, x1)
  {
  }

  /** Two non-negative feedings are one feeding of the sum: the cap is reached at the same point. */
  lemma FeedComposes(pet: Option<Pet>, a: int, b: int)
    requires b >= 0
    ensures Feed(Feed(pet, a), b) == Feed(pet, a + b)
  {
  }

  /** Feeding is not idempotent: a second feeding raises hunger again unless the cap was reached. */
  lemma FeedTwiceRaisesUntilFull(p: Pet, amount: int)
    requires amount > 0
    ensures var once := Feed(Some(p), amount).value.hunger;
            var twice := Feed(Feed(Some(p), amount), amount).value.hunger;
            once < MaxStat ==> twice > once
  {
  }

  /** `k` consecutive decay ticks. */
  function DecayTicks(pet: Option<Pet>, k: nat): Option<Pet>
  {
    if k == 0 then pet else DecayTick(DecayTicks(pet, k - 1))
  }

  /** After `k >= 1` ticks each stat has dropped by `k`, floored at zero, and nothing else moved. */
  lemma {:induction false} DecayTicksFloor(pet: Option<Pet>, k: nat)
    ensures pet.None? <==> DecayTicks(pet, k).None?
    ensures pet.Some? ==> SameExceptStats(pet.value, DecayTicks(pet, k).value)
    ensures pet.Some? && k > 0 ==> DecayTicks(pet, k).value.hunger == Max(0, pet.value.hunger - k)
    ensures pet.Some? && k > 0 ==> DecayTicks(pet, k).value.hygiene == Max(0, pet.value.hygiene - k)
  {
    if k > 0 {
      DecayTicksFloor(pet, k - 1);
      if pet.Some? && k > 1 {
        var before := DecayTicks(pet, k - 1).value;
        assert DecayTicks(pet, k).value.hunger == Max(0, before.hunger - DecayPerTick);
        assert DecayTicks(pet, k).value.hygiene == Max(0, before.hygiene - DecayPerTick);
      }
    }
  }

  /** A pet that reaches zero stays at zero under decay. */
  lemma {:induction false} DecayReachesZero(p: Pet, k: nat)
    requires p.hunger <= k && p.hygiene <= k && k > 0
    ensures DecayTicks(Some(p), k).Some?
    ensures DecayTicks(Some(p), k).value.hunger == 0 && DecayTicks(Some(p), k).value.hygiene == 0
  {
    DecayTicksFloor(Some(p), k);
  }

  // ---------------------------------------------------------------------------
  // Any sequence of store operations, each applied to the latest state

  datatype Action =
    | DoCreate(id: string, name: string, petType: PetType, gender: Gender, color: PetColor, now: int)
    | DoFeed(amount: int)
    | DoPlay
    | DoBathe(amount: int)
    | DoSetClothing(slot: Slot, item: Option<ItemId>)
    | DoEarnMoney(amount: int)
    | DoRemove
    | DoTick

  function Apply(pet: Option<Pet>, a: Action): Option<Pet> {
    match a
    case DoCreate(id, name, t, g, c, now) => CreatePet(id, name, t, g, c, now)
    case DoFeed(n) => Feed(pet, n)
    case DoPlay => Play(pet)
    case DoBathe(n) => Bathe(pet, n)
    case DoSetClothing(s, x) => SetClothing(pet, s, x)
    case DoEarnMoney(n) => EarnMoney(pet, n)
    case DoRemove => RemovePet(pet)
    case DoTick => DecayTick(pet)
  }

  function Run(pet: Option<Pet>, actions: seq<Action>): Option<Pet>
    decreases |actions|
  {
    if |actions| == 0 then pet else Run(Apply(pet, actions[0]), actions[1..])
  }

  /** The amounts the screens pass are never negative. */
  predicate NonNegativeAmounts(a: Action) {
    match a
    case DoFeed(n) => n >= 0
    case DoBathe(n) => n >= 0
    case DoEarnMoney(n) => n >= 0
    case _ => true
  }

  ghost predicate ValidStore(pet: Option<Pet>) {
    pet.Some? ==> Valid(pet.value)
  }

  /** Hunger and hygiene stay in [0,100] and money stays non-negative across any run. */
  lemma {:induction false} RunPreservesValid(pet: Option<Pet>, actions: seq<Action>)
    requires ValidStore(pet)
    requires forall i :: 0 <= i < |actions| ==> NonNegativeAmounts(actions[i])
    ensures ValidStore(Run(pet, actions))
    decreases |actions|
  {
    if |actions| > 0 {
      var next := Apply(pet, actions[0]);
      assert NonNegativeAmounts(actions[0]);
      assert ValidStore(next);
      RunPreservesValid(next, actions[1..]);
    }
  }

  /** With no pet, no operation but creation brings one into existence. */
  lemma {:induction false} RunWithoutCreateStaysEmpty(actions: seq<Action>)
    requires forall i :: 0 <= i < |actions| ==> !actions[i].DoCreate?
    ensures Run(None, actions) == None
    decreases |actions|
  {
    if |actions| > 0 {
      assert !actions[0].DoCreate?;
      RunWithoutCreateStaysEmpty(actions[1..]);
    }
  }

  /** Any run without creation or removal keeps the pet's identity. */
  lemma {:induction false} RunKeepsIdentity(p: Pet, actions: seq<Action>)
    requires forall i :: 0 <= i < |actions| ==> !actions[i].DoCreate? && !actions[i].DoRemove?
    ensures Run(Some(p), actions).Some?
    ensures SameIdentity(p, Run(Some(p), actions).value)
    decreases |actions|
  {
    if |actions| > 0 {
      var a := actions[0];
      assert !a.DoCreate? && !a.DoRemove?;
      var next := Apply(Some(p), a);
      assert next.Some? && SameIdentity(p, next.value);
      RunKeepsIdentity(next.value, actions[1..]);
    }
  }

  // ---------------------------------------------------------------------------
  // Worked examples

  /** Creating Rex, a brown male dog, gives a full, clean, penniless, undressed pet. */
  lemma CreateRex(id: string, now: int)
    ensures var r := CreatePet(id, "Rex", Dog, Male, Brown, now).value;
            r.hunger == 100 && r.hygiene == 100 && r.money == 0 && r.clothes == NoClothes && r.createdAt == now
  {
  }

  /** Feeding 25 at hunger 90 clamps to 100 rather than 115. */
  lemma FeedClampsAtFull(p: Pet)
    requires p.hunger == 90
    ensures Feed(Some(p), DefaultFeedAmount).value.hunger == 100
  {
  }

  /** A bath of 30 at hygiene 5 and hunger 3 gives hygiene 35 and hunger 0. */
  lemma BatheFromLow(p: Pet)
    requires p.hygiene == 5 && p.hunger == 3
    ensures Bathe(Some(p), DefaultBatheAmount).value.hygiene == 35
    ensures Bathe(Some(p), DefaultBatheAmount).value.hunger == 0
  {
  }

  /** Tick, feed 20, tick from hunger 50 ends at 68 when each step reads the latest state. */
  lemma TickFeedTick(p: Pet)
    requires p.hunger == 50
    ensures DecayTick(Feed(DecayTick(Some(p)), 20)).value.hunger == 68
  {
  }
}
