/**
 The persistence gateway (`src/utils/storage.ts`): one pet kept under one key of a
 key-value store. The store is a map from key to what `JSON.parse` makes of the
 stored text: a document, or nothing usable. A document is the pet as read back,
 where fields added by later versions of the app may be missing.
 */
module Storage {
  import opened Wrappers
  import opened PetModel

  const PetStorageKey := "@pet_care_game:pet"

  /**
   A stored pet object. `color` is None when the field is undefined or null;
   `money` is None when it is undefined.
   */
  datatype Document = Document(
    id: string,
    name: string,
    petType: PetType,
    gender: Gender,
    color: Option<string>,
    hunger: int,
    hygiene: int,
    money: Option<int>,
    clothes: Clothes,
    createdAt: int
  )

  /** What a stored value parses to. */
  datatype Blob = Parsed(doc: Document) | Unparseable

  type Store = map<string, Blob>

  const DefaultColor := "base"
  const DefaultMoney := 0

  /** The colour's name as stored; never empty, so migration never replaces it. */
  function ColorName(c: PetColor): (r: string)
    ensures !FalsyColor(Some(r))
    ensures r == DefaultColor <==> c == Base
  {
    match c
    case Base => "base"
    case Black => "black"
    case Brown => "brown"
    case WhiteAndBrown => "whiteandbrown"
  }

  function ParseColor(s: string): (r: Option<PetColor>)
    ensures r.Some? ==> ColorName(r.value) == s
    ensures forall c :: ColorName(c) == s ==> r == Some(c)
  {
    if s == "base" then Some(Base)
    else if s == "black" then Some(Black)
    else if s == "brown" then Some(Brown)
    else if s == "whiteandbrown" then Some(WhiteAndBrown)
    else None
  }

  /** A JavaScript string value is falsy exactly when it is missing or empty. */
  predicate FalsyColor(c: Option<string>) {
    c.None? || c.value == ""
  }

  /** Both fields the migration backfills are present. */
  predicate Complete(d: Document) {
    !FalsyColor(d.color) && d.money.Some?
  }

  /** The load-time migration: backfill a falsy colour and a missing money, touch nothing else. */
  function Migrate(d: Document): (r: Document)
    ensures Complete(r)
    ensures FalsyColor(d.color) ==> r.color == Some(DefaultColor)
    ensures !FalsyColor(d.color) ==> r.color == d.color
    ensures d.money.None? ==> r.money == Some(DefaultMoney)
    ensures d.money.Some? ==> r.money == d.money
    ensures r.(color := d.color, money := d.money) == d
  {
    var withColor := if FalsyColor(d.color) then d.(color := Some(DefaultColor)) else d;
    if withColor.money.None? then withColor.(money := Some(DefaultMoney)) else withColor
  }

  /** The in-memory pet as it is serialized. */
  function ToDocument(p: Pet): (d: Document)
    ensures Complete(d)
  {
    Document(p.id, p.name, p.petType, p.gender, Some(ColorName(p.color)), p.hunger, p.hygiene,
             Some(p.money), p.clothes, p.createdAt)
  }

  /** Reads a complete document back as a pet; None when its colour names none of the four. */
  function FromDocument(d: Document): (r: Option<Pet>)
    ensures r.Some? ==> Complete(d) && ToDocument(r.value) == d
  {
    if d.color.None? || d.money.None? then None
    else match ParseColor(d.color.value)
      case None => None
      case Some(c) =>
        Some(Pet(d.id, d.name, d.petType, d.gender, c, d.hunger, d.hygiene, d.money.value, d.clothes, d.createdAt))
  }

  function SavePet(store: Store, p: Pet): (r: Store)
    ensures PetStorageKey in r && r[PetStorageKey] == Parsed(ToDocument(p))
    ensures forall k :: k != PetStorageKey ==> (k in r <==> k in store)
    ensures forall k :: k != PetStorageKey && k in store ==> r[k] == store[k]
  {
    store[PetStorageKey := Parsed(ToDocument(p))]
  }

  /** None when nothing is stored or the stored text does not parse; otherwise the migrated document. */
  function LoadPet(store: Store): (r: Option<Document>)
    ensures PetStorageKey !in store ==> r.None?
    ensures PetStorageKey in store && store[PetStorageKey].Unparseable? ==> r.None?
    ensures PetStorageKey in store && store[PetStorageKey].Parsed? ==> r == Some(Migrate(store[PetStorageKey].doc))
    ensures r.Some? ==> Complete(r.value)
  {
    if PetStorageKey !in store then None
    else match store[PetStorageKey]
      case Unparseable => None
      case Parsed(d) => Some(Migrate(d))
  }

  function DeletePet(store: Store): (r: Store)
    ensures PetStorageKey !in r
    ensures forall k :: k != PetStorageKey ==> (k in r <==> k in store)
    ensures forall k :: k != PetStorageKey && k in store ==> r[k] == store[k]
  {
    store - {PetStorageKey}
  }

  // ---------------------------------------------------------------------------
  // Laws

  /** Migrating an already migrated document changes nothing. */
  lemma MigrateIdempotent(d: Document)
    ensures Migrate(Migrate(d)) == Migrate(d)
  {
  }

  /** A document that already has both fields comes through migration unchanged. */
  lemma MigrateKeepsComplete(d: Document)
    requires Complete(d)
    ensures Migrate(d) == d
  {
  }

  /** A present money of 0 is kept: only an absent field is backfilled. */
  lemma MigrateKeepsZeroMoney(d: Document)
    requires d.money == Some(0)
    ensures Migrate(d).money == Some(0)
  {
  }

  /** Serializing and reading back gives the pet again. */
  lemma DocumentRoundTrip(p: Pet)
    ensures FromDocument(ToDocument(p)) == Some(p)
  {
    assert ParseColor(ColorName(p.color)) == Some(p.color);
  }

  /** Saving and then loading returns the saved pet, whatever else the store holds. */
  lemma SaveLoadRoundTrip(store: Store, p: Pet)
    ensures LoadPet(SavePet(store, p)) == Some(ToDocument(p))
    ensures FromDocument(LoadPet(SavePet(store, p)).value) == Some(p)
  {
    MigrateKeepsComplete(ToDocument(p));
    DocumentRoundTrip(p);
  }

  /** A document written by an older version loads with its missing fields defaulted and nothing else changed. */
  lemma LoadOldDocument(store: Store, d: Document)
    requires PetStorageKey in store && store[PetStorageKey] == Parsed(d)
    requires d.money.None?
    ensures LoadPet(store).Some? && LoadPet(store).value.money == Some(0)
    ensures LoadPet(store).value.(color := d.color, money := d.money) == d
  {
  }

  /** After deleting, nothing is loaded. */
  lemma DeleteThenLoad(store: Store)
    ensures LoadPet(DeletePet(store)) == None
  {
  }

  /** Loading depends on the pet key alone. */
  lemma LoadReadsOnlyPetKey(s1: Store, s2: Store)
    requires PetStorageKey in s1 <==> PetStorageKey in s2
    requires PetStorageKey in s1 ==> s1[PetStorageKey] == s2[PetStorageKey]
    ensures LoadPet(s1) == LoadPet(s2)
  {
  }

  /** A later save replaces an earlier one completely. */
  lemma SaveOverwrites(store: Store, p: Pet, q: Pet)
    ensures SavePet(SavePet(store, p), q) == SavePet(store, q)
  {
  }
}
