/**
 The pet provider of `src/context/PetContext.tsx` as a whole: the in-memory pet
 together with the key-value store it writes behind. Every operation first
 computes the new pet with the pure transition of PetStore, then saves it (or
 deletes the record on removal). Storage writes are taken to succeed.
 */
module Provider {
  import opened Wrappers
  import opened PetModel
  import opened PetStore
  import opened Storage

  datatype State = State(isLoading: bool, pet: Option<Pet>, store: Store)

  /** The provider before the first load has finished. */
  function Initial(store: Store): (s: State)
    ensures s.isLoading && s.pet.None? && s.store == store
  {
    State(true, None, store)
  }

  /** A loaded document as an in-memory pet; None also when its colour names none of the four colours. */
  function Decode(d: Option<Document>): (r: Option<Pet>)
    ensures d.None? ==> r.None?
    ensures r.Some? ==> d.Some? && ToDocument(r.value) == d.value
    ensures forall p :: d == Some(ToDocument(p)) ==> r == Some(p)
  {
    match d
    case None => None
    case Some(doc) => FromDocument(doc)
  }

  /** The start-up effect: load, hand the result to the pet state, stop loading. */
  function FinishLoading(s: State): (r: State)
    ensures !r.isLoading && r.store == s.store
    ensures LoadPet(s.store).None? ==> r.pet.None?
    ensures r.pet.Some? ==> LoadPet(s.store) == Some(ToDocument(r.pet.value))
    ensures forall p :: LoadPet(s.store) == Some(ToDocument(p)) ==> r.pet == Some(p)
  {
    State(false, Decode(LoadPet(s.store)), s.store)
  }

  /** An operation: the pure transition, then the write it triggers. Without a pet nothing is written. */
  function Perform(s: State, a: Action): (r: State)
    ensures r.pet == Apply(s.pet, a)
    ensures r.isLoading == s.isLoading
    ensures a.DoRemove? ==> PetStorageKey !in r.store && r.store == DeletePet(s.store)
    ensures r.pet.Some? && (a.DoCreate? || s.pet.Some?) ==> r.store == SavePet(s.store, r.pet.value)
    ensures s.pet.None? && !a.DoCreate? && !a.DoRemove? ==> r == s
  {
    var next := Apply(s.pet, a);
    match a
    case DoRemove => s.(pet := None, store := DeletePet(s.store))
    case DoCreate(_, _, _, _, _, _) => s.(pet := next, store := SavePet(s.store, next.value))
    case _ =>
      if s.pet.None? then s
      else s.(pet := next, store := SavePet(s.store, next.value))
  }

  function RunAll(s: State, actions: seq<Action>): State
    decreases |actions|
  {
    if |actions| == 0 then s else RunAll(Perform(s, actions[0]), actions[1..])
  }

  /** The stored record says what the in-memory state says. */
  ghost predicate InSync(s: State) {
    && (s.pet.None? ==> LoadPet(s.store).None?)
    && (s.pet.Some? ==> LoadPet(s.store) == Some(ToDocument(s.pet.value)))
  }

  /** One operation keeps memory and storage in step. */
  lemma PerformKeepsSync(s: State, a: Action)
    requires InSync(s)
    ensures InSync(Perform(s, a))
  {
    var r := Perform(s, a);
    if r.pet.Some? && (a.DoCreate? || s.pet.Some?) {
      SaveLoadRoundTrip(s.store, r.pet.value);
    } else if a.DoRemove? {
      DeleteThenLoad(s.store);
    }
  }

  /** Any sequence of operations keeps memory and storage in step, and memory follows the pure transitions. */
  lemma {:induction false} RunKeepsSync(s: State, actions: seq<Action>)
    requires InSync(s)
    ensures InSync(RunAll(s, actions))
    ensures RunAll(s, actions).pet == PetStore.Run(s.pet, actions)
    decreases |actions|
  {
    if |actions| > 0 {
      PerformKeepsSync(s, actions[0]);
      RunKeepsSync(Perform(s, actions[0]), actions[1..]);
    }
  }

  /** Restarting the app after operations whose writes all landed reloads the same pet. */
  lemma RestartRestoresPet(s: State, actions: seq<Action>)
    requires InSync(s)
    ensures FinishLoading(Initial(RunAll(s, actions).store)).pet == RunAll(s, actions).pet
  {
    RunKeepsSync(s, actions);
    var e := RunAll(s, actions);
    if e.pet.Some? {
      DocumentRoundTrip(e.pet.value);
    }
  }

  /** A finished load from a store holding a decodable pet, or none, starts in step. */
  lemma LoadedStateInSync(store: Store)
    requires LoadPet(store).Some? ==> FromDocument(LoadPet(store).value).Some?
    ensures InSync(FinishLoading(Initial(store)))
  {
  }
}
