# Pet care game: the state core in Dafny

A model of the logic under a small virtual-pet mobile game. One pet at a time is
created, fed, played with, bathed, dressed and paid; its hunger and hygiene decay
once a minute; it is persisted under one key of a key-value store, and migrated
when an older record is loaded. Around that sit a pure age calculation, a cyclic
list cursor used by several screens, the static clothing catalog, and the
creation form's rule that a cat may only be white or black.

Modules, one per source component:

- `PetModel` (`pet_model.dfy`): the pet record, its enumerations and the four clothing slots.
- `PetStore` (`pet_store.dfy`): the transitions of `src/context/PetContext.tsx` as pure
  `Option<Pet> -> Option<Pet>` functions, with laws and worked examples.
- `Provider` (`provider.dfy`): the provider as a whole. It holds the in-memory pet and the
  store it writes behind, and keeps the two in step.
- `Age` (`age.dfy`): `calculatePetAge`, with the clock passed in.
- `Storage` (`storage.dfy`): `savePet`, `loadPet` with its migration, and `deletePet`,
  over a map from key to parsed value.
- `Navigation` (`navigation.dfy`): `useNavigationList`, with JavaScript's truncating `%` and the
  NaN that `x % 0` gives.
- `Clothing` (`clothing.dfy`): `CLOTHING_ITEMS` and `getItemsBySlot`.
- `CreateForm` (`create_form.dfy`): the type, gender, colour and name inputs of the creation
  screen, and its `handleCreate` guard.
- `Wrappers` (`wrappers.dfy`): `Option`.

Where the code and `src/types.ts` disagree, the model follows the code:

- The colour set has the four values of `src/components/PetRenderer.tsx` and the pet has the
  `money` field that `src/context/PetContext.tsx` writes; `src/types.ts` declares two colours and no money.

Other choices about the code as written:

- `earnMoney` adds to `pet.money` directly, with no fallback for a missing value.
- Each transition is applied to the latest state. The decay timer captures the render-time
  pet but is re-armed on every change of the pet, so each tick reads the latest state.

Parameters stand in for foreign calls. The id `uuidv4()` would produce and the time
`Date.now()` would return are arguments. AsyncStorage is a `map<string, Blob>`. A `Blob` is
what `JSON.parse` makes of the stored text: a `Document`, or `Unparseable`.

## Model

| member | source | states |
|---|---|---|
| PetStore.CreatePet | src/context/PetContext.tsx:49-66 | the new pet has hunger and hygiene 100, money 0, all four slots empty, the given name, type, gender and colour, the supplied id and creation time, and is valid |
| PetStore.Feed | src/context/PetContext.tsx:71-79 | no pet stays no pet; hunger becomes the old hunger plus the amount unless that passes 100, where it stops; hygiene, money, clothes and identity are untouched; a valid pet fed a non-negative amount stays valid |
| PetStore.Play | src/context/PetContext.tsx:81-89 | hunger drops by 20 but not below 0; hygiene, money, clothes and identity are untouched |
| PetStore.Bathe | src/context/PetContext.tsx:91-100 | hygiene rises by the amount up to 100, hunger drops by 10 down to 0, nothing else changes, and both stay in [0,100] for a non-negative amount |
| PetStore.SetClothing | src/context/PetContext.tsx:102-113 | the chosen slot holds the given item (or nothing), the other three slots and every other field are unchanged, and no pet stays no pet |
| PetModel.Wear | src/context/PetContext.tsx:106-109 | the outfit holds the given item in the chosen slot and keeps the other three slots as they were |
| PetStore.EarnMoney | src/context/PetContext.tsx:120-128 | money grows by exactly the amount and nothing else changes; a non-negative amount keeps money non-negative |
| PetStore.RemovePet | src/context/PetContext.tsx:115-118 | whatever the state, afterwards there is no pet |
| PetStore.DecayTick | src/context/PetContext.tsx:36-44 | hunger and hygiene each drop by 1, floored at 0, nothing else changes, and a valid pet stays valid |
| PetStore.EarnMoneyAdditive | src/context/PetContext.tsx:120-128 | earning a then b equals earning a+b, with or without a pet |
| PetStore.SetClothingIdempotent | src/context/PetContext.tsx:102-113 | setting the same slot to the same item twice equals setting it once |
| PetStore.SetClothingCommutes | src/context/PetContext.tsx:102-113 | settings of two different slots can be applied in either order |
| PetStore.FeedComposes | src/context/PetContext.tsx:71-79 | feeding a then a non-negative b equals feeding a+b, because the cap at 100 absorbs the same excess |
| PetStore.FeedTwiceRaisesUntilFull | src/context/PetContext.tsx:71-79 | feeding is not idempotent: below the cap, a second positive feeding raises hunger again |
| PetStore.DecayTicksFloor | src/context/PetContext.tsx:36-44 | after k ≥ 1 ticks each stat is its old value minus k, floored at 0, and nothing else moved |
| PetStore.DecayReachesZero | src/context/PetContext.tsx:36-44 | a pet whose stats are at most k has both stats at 0 after k ticks |
| PetStore.RunPreservesValid | src/context/PetContext.tsx:36-128 | along any sequence of store operations with non-negative amounts, hunger and hygiene stay in [0,100] and money stays ≥ 0 |
| PetStore.RunWithoutCreateStaysEmpty | src/context/PetContext.tsx:72-121 | without a pet, every operation except creation is a no-op |
| PetStore.RunKeepsIdentity | src/context/PetContext.tsx:71-128 | no operation other than create and remove changes id, name, type, gender, colour or creation time |
| PetStore.CreateRex | src/context/PetContext.tsx:49-66 | Rex, a brown male dog, starts with hunger 100, hygiene 100, money 0, no clothes and the current time |
| PetStore.FeedClampsAtFull | src/context/PetContext.tsx:71-79 | feeding the default 25 at hunger 90 gives 100, not 115 |
| PetStore.BatheFromLow | src/context/PetContext.tsx:91-100 | a default bath at hygiene 5 and hunger 3 gives hygiene 35 and hunger 0 |
| PetStore.TickFeedTick | src/context/PetContext.tsx:36-44 | tick, feed 20, tick from hunger 50 ends at 68 when each step reads the latest state |
| Provider.Initial | src/context/PetContext.tsx:22-23 | the provider starts loading, with no pet |
| Provider.Decode | src/context/PetContext.tsx:26-27 | no loaded document gives no pet, and a decoded pet serializes back to the loaded document, and every document that is the serialization of a pet decodes to exactly that pet |
| Provider.FinishLoading | src/context/PetContext.tsx:25-30 | after start-up loading stops; an empty or unreadable store gives no pet, a loaded pet is the one the store holds, and a stored record of a pet always comes back as that pet |
| Provider.Perform | src/context/PetContext.tsx:49-128 | the in-memory pet follows the pure transition; create and every change to an existing pet save it, remove deletes only the pet key, an operation without a pet leaves everything as it was, and the loading flag never changes |
| Provider.PerformKeepsSync | src/context/PetContext.tsx:67-128 | if the stored record matched the in-memory pet before an operation, it matches after |
| Provider.RunKeepsSync | src/context/PetContext.tsx:49-128 | along any sequence of operations storage stays in step with memory, and memory is the pure run of the transitions |
| Provider.RestartRestoresPet | src/context/PetContext.tsx:25-30 | a restart after operations whose writes all landed reloads exactly the pet that was in memory |
| Provider.LoadedStateInSync | src/context/PetContext.tsx:25-30 | start-up from a store holding no pet or a readable pet begins in step |
| Age.CalculatePetAge | src/utils/age.ts:10-27 | the age is in [1,19]; a missing, negative or future creation time gives 1; otherwise the age counts the started week since creation, and at 19 at least 18 full weeks have passed |
| Age.AgeMonotone | src/utils/age.ts:18-24 | for a fixed valid creation time the age never decreases as time passes |
| Age.AgeFirstWeek | src/utils/age.ts:1-6 | less than one full week after creation the age is 1 |
| Age.AgeNextWeek | src/utils/age.ts:1-6 | one more week adds exactly one year, until 19 |
| Age.AgeFitsUnique | src/utils/age.ts:21-24 | only one age fits a given elapsed time, so the characterisation fixes the result |
| Age.CountAge | src/utils/age.ts:8-24 | counting whole weeks of 604800000 ms one at a time, capped at 19, gives the same age as the division |
| Storage.Migrate | src/utils/storage.ts:20-29 | a missing or empty colour becomes "base" and a present one is kept; a missing money becomes 0 and a present one, 0 included, is kept; no other field changes |
| Storage.ToDocument | src/utils/storage.ts:6-10 | a serialized in-memory pet always carries a colour and money |
| Storage.FromDocument | src/utils/storage.ts:29 | a document read back as a pet serializes to the same document |
| Storage.ParseColor | src/components/PetRenderer.tsx:17-29 | the four colour names are read back as exactly the colours they name |
| Storage.ColorName | src/components/PetRenderer.tsx:17-29 | every colour is stored under a non-empty name, so migration never replaces it, and only base is stored as "base" |
| Storage.SavePet | src/utils/storage.ts:4-10 | the pet's document is stored under "@pet_care_game:pet" and no other key changes |
| Storage.LoadPet | src/utils/storage.ts:16-36 | an absent key or an unparseable value gives no pet instead of failing; otherwise the migrated document, which is always complete |
| Storage.DeletePet | src/utils/storage.ts:38-45 | the pet key is gone and no other key changes |
| Storage.MigrateIdempotent | src/utils/storage.ts:20-29 | migrating twice is migrating once |
| Storage.MigrateKeepsComplete | src/utils/storage.ts:20-29 | a document with a colour and money comes through migration unchanged |
| Storage.MigrateKeepsZeroMoney | src/utils/storage.ts:26-28 | a stored money of 0 is not replaced, whatever the colour, since only an undefined money is backfilled |
| Storage.DocumentRoundTrip | src/utils/storage.ts:6-29 | serializing a pet and reading it back gives the same pet |
| Storage.SaveLoadRoundTrip | src/utils/storage.ts:6-29 | save then load returns the saved pet, whatever else the store holds |
| Storage.LoadOldDocument | src/utils/storage.ts:20-29 | a record without money loads with money 0 and every other field as stored, apart from a defaulted colour |
| Storage.DeleteThenLoad | src/utils/storage.ts:16-19 | after a delete, loading gives no pet |
| Storage.LoadReadsOnlyPetKey | src/utils/storage.ts:4-18 | loading depends on the pet key alone |
| Storage.SaveOverwrites | src/utils/storage.ts:6-10 | a later save replaces an earlier one completely |
| Navigation.JsRem | src/hooks/useNavigationList.ts:28-32 | JavaScript's remainder takes the sign of the dividend, lies strictly within the divisor, and equals the mathematical remainder for a non-negative dividend |
| Navigation.JsRemOdd | src/hooks/useNavigationList.ts:28-32 | negating the dividend negates the remainder, which fixes the value for negative dividends too |
| Navigation.InitialIndex | src/hooks/useNavigationList.ts:23-25 | for n ≥ 1 the start index is the requested one clamped into [0,n−1]; for an empty list it is 0 |
| Navigation.GoToNext | src/hooks/useNavigationList.ts:27-29 | moves one forward and wraps from the last item to the first; an empty list or a NaN index gives NaN |
| Navigation.GoToPrevious | src/hooks/useNavigationList.ts:31-33 | moves one back and wraps from the first item to the last; an empty list or a NaN index gives NaN |
| Navigation.HasNext | src/hooks/useNavigationList.ts:35 | true exactly when the index is a number below n−1 |
| Navigation.HasPrevious | src/hooks/useNavigationList.ts:36 | true exactly when the index is a number above 0 |
| Navigation.HasNextMeansNoWrap | src/hooks/useNavigationList.ts:27-35 | inside the list, hasNext holds exactly when going forward moves to the next index instead of wrapping to the first |
| Navigation.HasPreviousMeansNoWrap | src/hooks/useNavigationList.ts:31-36 | inside the list, hasPrevious holds exactly when going back moves to the previous index instead of wrapping to the last |
| Navigation.CurrentItem | src/hooks/useNavigationList.ts:39 | the item at the index when the index is inside the list, undefined otherwise |
| Navigation.TotalItems | src/hooks/useNavigationList.ts:45 | the count is the list's length, and no step changes it |
| Navigation.Open | src/hooks/useNavigationList.ts:19-25 | the cursor opens at the initial index clamped into the list (0 for an empty one), so a non-empty list has a current item |
| Navigation.NextIsModular | src/hooks/useNavigationList.ts:27-29 | inside the list, the next index is (i+1) mod n and lies in [0,n) |
| Navigation.PreviousIsModular | src/hooks/useNavigationList.ts:31-33 | inside the list, the previous index is (i−1+n) mod n and lies in [0,n) |
| Navigation.PreviousAfterNext | src/hooks/useNavigationList.ts:27-33 | going back undoes going forward |
| Navigation.NextAfterPrevious | src/hooks/useNavigationList.ts:27-33 | going forward undoes going back |
| Navigation.NextNIsAddition | src/hooks/useNavigationList.ts:27-29 | k steps forward from i land on (i+k) mod n |
| Navigation.FullCycle | src/hooks/useNavigationList.ts:27-29 | n steps forward return to the start index |
| Navigation.StepsStayInside | src/hooks/useNavigationList.ts:27-39 | on a non-empty list, any mix of steps keeps the index in [0,n), so there is always a current item |
| Navigation.EmptyListLosesIndex | src/hooks/useNavigationList.ts:27-36 | on an empty list a step makes the index NaN, and then neither hasNext nor hasPrevious holds |
| Clothing.FindById | src/components/PetRenderer.tsx:187 | a found item is in the list, has the id, and no earlier item has it, as `find` returns the first match; nothing found means no item has it |
| Clothing.FilterBySlot | src/data/clothingItems.ts:30 | the filter is never longer than its input and every item it returns has the slot |
| Clothing.GetItemsBySlot | src/data/clothingItems.ts:29-31 | every item returned has the queried slot and there are never more than the catalog holds |
| Clothing.FilterBySlotSound | src/data/clothingItems.ts:29-31 | the filter returns exactly the items of the slot, every returned item has that slot, and it is never longer than its input |
| Clothing.FilterAppend | src/data/clothingItems.ts:29-31 | filtering a concatenation is concatenating the filtered parts, so the result keeps catalog order |
| Clothing.SlotsPartition | src/data/clothingItems.ts:29-31 | for any list, the four slot filters' lengths add up to the list's length |
| Clothing.SlotQueriesDisjoint | src/data/clothingItems.ts:29-31 | no item is returned for two different slots |
| Clothing.GetItemsBySlotExact | src/data/clothingItems.ts:29-31 | getItemsBySlot(s) holds the catalog items whose slot is s and no others |
| Clothing.HeadQuery | src/data/clothingItems.ts:9-12 | the head query returns the three hats in catalog order |
| Clothing.EyesQuery | src/data/clothingItems.ts:14-17 | the eyes query returns the three eye items in catalog order |
| Clothing.TorsoQuery | src/data/clothingItems.ts:19-22 | the torso query returns the three torso items in catalog order |
| Clothing.PawsQuery | src/data/clothingItems.ts:24-26 | the paws query returns the two paw items in catalog order |
| Clothing.CatalogSlotCounts | src/data/clothingItems.ts:8-31 | the slot queries return 3, 3, 3 and 2 items, which sum to the catalog's 11 |
| Clothing.CatalogIdsDistinct | src/data/clothingItems.ts:8-27 | no two catalog items share an id |
| Clothing.FindByIdUnique | src/components/PetRenderer.tsx:187 | in a list with distinct ids, looking up an item's id finds that item |
| CreateForm.LeadingSpace | src/screens/CreatePetScreen.tsx:39 | counts the whitespace at the front: all of it is whitespace and the next character is not |
| CreateForm.TrailingSpace | src/screens/CreatePetScreen.tsx:39 | counts the whitespace at the back: all of it is whitespace and the character before is not |
| CreateForm.Trim | src/screens/CreatePetScreen.tsx:39-40 | the trimmed name is the slice of the name between its leading and trailing whitespace: it neither starts nor ends with whitespace, everything cut off on either side is whitespace, and it is empty exactly when the name is all whitespace |
| CreateForm.TrimIdempotent | src/screens/CreatePetScreen.tsx:39-40 | trimming twice is trimming once |
| CreateForm.AvailableColors | src/screens/CreatePetScreen.tsx:106-139 | white and black are always offered; brown and white-and-brown only for a dog |
| CreateForm.ChangePetType | src/screens/CreatePetScreen.tsx:30-36 | switching to cat turns brown or white-and-brown into base and keeps base or black; switching to dog keeps the colour; name and gender stay |
| CreateForm.Step | src/screens/CreatePetScreen.tsx:30-139 | a type tap is handlePetTypeChange; a shown gender or colour button sets that gender or colour and a hidden one changes nothing; a typed name becomes the text cut to its first 20 characters; nothing else changes |
| CreateForm.StepKeepsColorAllowed | src/screens/CreatePetScreen.tsx:30-36 | no single tap can leave the form with a colour its type does not offer |
| CreateForm.CatNeverDogColor | src/screens/CreatePetScreen.tsx:30-36 | across any sequence of taps, the colour stays one the type offers; a cat is base or black |
| CreateForm.ReachableFormsAllowed | src/screens/CreatePetScreen.tsx:23-36 | every form reachable from the opening form keeps that rule |
| CreateForm.Submit | src/screens/CreatePetScreen.tsx:38-41 | nothing happens when the name is all whitespace; otherwise the request carries the trimmed name and the chosen type, gender and colour |
| CreateForm.CreateFromForm | src/screens/CreatePetScreen.tsx:38-41 | a pet is created exactly when the name is not all whitespace, and it carries the trimmed name and the chosen type, gender and colour |
| CreateForm.CreatedFromScreen | src/screens/CreatePetScreen.tsx:38-41 | a pet created through the screen has a trimmed non-empty name of at most 20 characters, a cat one of the cat colours, and valid stats |
| CreateForm.NameWithinLimit | src/screens/CreatePetScreen.tsx:84 | the name held by the form never exceeds 20 characters |

## Left out

- Rendering, styles, animations, toasts, navigation between screens and the back button: UI with no logic to state.
- JSON encoding: `JSON.stringify` followed by `JSON.parse` is taken to give back the same object, so the store holds parsed documents.
- Storage failures: `savePet` and `deletePet` rethrow a storage error and `loadPet` logs a read error. The model's storage calls always succeed, and a failed parse is the `Unparseable` value.
- Asynchrony: the `await` ordering, the 60-second `setInterval` scheduling and its re-arming, and React's batching. Two back-to-back calls that read the same render-time pet can overwrite each other, as `play()` then `earnMoney()` do in the play screen. The model only covers transitions applied one after another to the latest state.
- Money awarded by the screens (flat amounts per action): screen policy, not store logic.
- The pet's `background` and `setBackground`: the provider has neither.
- `setIndex`, which the wardrobe screen reads from the navigation hook: the hook does not return it.
- The root-level `HomeScreen.tsx` and `types.ts`: stale variants.
- Number representation: JavaScript numbers are doubles. The model uses unbounded integers. It does not cover fractional amounts or indices, Infinity, or a NaN passed in. It does cover the NaN that `x % 0` produces on an empty list.
- Storage.Migrate: an explicit `null` money is not modelled (only an absent one), though the source backfills only `undefined` and would keep the `null`.
- Storage.Migrate: a falsy non-string colour (0, false) is not modelled. A colour is absent, empty or a string.
- Provider.FinishLoading: a stored colour string outside the four names has no in-memory counterpart here, so such a record starts as no pet. The source would keep the odd string.
- Fields other than colour and money missing from an old record: the source does not backfill them, and the model does not represent them.
- CreateForm.Step: the text field's 20-character limit is modelled as cutting the typed text to 20 characters. The limit counts Unicode scalar values, where `maxLength` counts UTF-16 code units, so a name with characters outside the Basic Multilingual Plane (emoji) can be longer in the model than the field allows.
- CreateForm.NameWithinLimit: the bound of 20 is in Unicode scalar values, not UTF-16 code units, for the same reason.
- `Math.round` percentages and other display formatting.
