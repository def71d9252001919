/**
 The pet-creation form of `src/screens/CreatePetScreen.tsx` as a state machine:
 the taps the screen offers, the rule that a cat can only wear the cat colours,
 and the trimmed-name guard in front of `createPet`.
 */
module CreateForm {
  import opened Wrappers
  import opened PetModel
  import PetStore

  // ---------------------------------------------------------------------------
  // String.prototype.trim

  /** ECMAScript WhiteSpace and LineTerminator code points, the characters `trim` removes. */
  predicate IsSpace(c: char) {
    || c == '\U{9}' || c == '\U{A}' || c == '\U{B}' || c == '\U{C}' || c == '\U{D}'
    || c == ' ' || c == '\U{A0}' || c == '\U{1680}'
    || ('\U{2000}' <= c <= '\U{200A}')
    || c == '\U{2028}' || c == '\U{2029}' || c == '\U{202F}' || c == '\U{205F}' || c == '\U{3000}'
    || c == '\U{FEFF}'
  }

  ghost predicate AllSpace(s: string) {
    forall k :: 0 <= k < |s| ==> IsSpace(s[k])
  }

  /** The number of whitespace characters at the front of `s`. */
  function LeadingSpace(s: string): (n: nat)
    ensures n <= |s|
    ensures forall k :: 0 <= k < n ==> IsSpace(s[k])
    ensures n < |s| ==> !IsSpace(s[n])
    decreases |s|
  {
    if |s| > 0 && IsSpace(s[0]) then 1 + LeadingSpace(s[1..]) else 0
  }

  /** The number of whitespace characters at the back of `s`. */
  function TrailingSpace(s: string): (n: nat)
    ensures n <= |s|
    ensures forall k :: |s| - n <= k < |s| ==> IsSpace(s[k])
    ensures n < |s| ==> !IsSpace(s[|s| - n - 1])
    decreases |s|
  {
    if |s| > 0 && IsSpace(s[|s| - 1]) then 1 + TrailingSpace(s[..|s| - 1]) else 0
  }

  /** `s.trim()`: the slice of `s` between its leading and trailing whitespace. */
  function Trim(s: string): (r: string)
    ensures LeadingSpace(s) + |r| <= |s|
    ensures |r| > 0 ==> !IsSpace(r[0]) && !IsSpace(r[|r| - 1])
    ensures |r| == 0 <==> AllSpace(s)
    ensures forall k :: 0 <= k < |r| ==> r[k] == s[LeadingSpace(s) + k]
    ensures forall k :: LeadingSpace(s) + |r| <= k < |s| ==> IsSpace(s[k])
  {
    var a := LeadingSpace(s);
    var t := s[a..];
    var b := TrailingSpace(t);
    assert |t| - b < |t| ==> !IsSpace(t[|t| - b - 1]);
    t[..|t| - b]
  }

  /** Trimming twice is trimming once. */
  lemma TrimIdempotent(s: string)
    ensures Trim(Trim(s)) == Trim(s)
  {
    var r := Trim(s);
    if |r| > 0 {
      assert LeadingSpace(r) == 0;
      assert TrailingSpace(r) == 0;
      assert r[0..] == r;
    }
  }

  // ---------------------------------------------------------------------------
  // The form

  /** The text field accepts at most this many characters. */
  const NameMaxLength := 20

  datatype Form = Form(name: string, petType: PetType, gender: Gender, color: PetColor)

  /** The screen opens on an unnamed white female cat. */
  const InitialForm := Form("", Cat, Female, Base)

  /** The colour buttons the screen shows: the two brown ones only for a dog. */
  function AvailableColors(t: PetType): (cs: set<PetColor>)
    ensures Base in cs && Black in cs
    ensures Brown in cs <==> t == Dog
    ensures WhiteAndBrown in cs <==> t == Dog
  {
    match t
    case Cat => {Base, Black}
    case Dog => {Base, Black, Brown, WhiteAndBrown}
  }

  /** The gender buttons the screen shows. */
  predicate GenderOffered(g: Gender) {
    g == Male || g == Female
  }

  /** `handlePetTypeChange`: switching to cat drops a dog-only colour back to base. */
  function ChangePetType(f: Form, t: PetType): (r: Form)
    ensures r.petType == t && r.name == f.name && r.gender == f.gender
    ensures t == Cat && f.color in {Brown, WhiteAndBrown} ==> r.color == Base
    ensures t == Cat && f.color in {Base, Black} ==> r.color == f.color
    ensures t == Dog ==> r.color == f.color
    ensures t == Cat ==> r.color in {Base, Black}
  {
    if t == Cat && (f.color == Brown || f.color == WhiteAndBrown) then
      f.(petType := t, color := Base)
    else
      assert t == Cat ==> f.color == Base || f.color == Black;
      f.(petType := t)
  }

  datatype Tap =
    | TypeTapped(petType: PetType)
    | GenderTapped(gender: Gender)
    | ColorTapped(color: PetColor)
    | NameTyped(text: string)

  /** One user action. A tap on a button the screen does not show changes nothing. */
  function Step(f: Form, tap: Tap): (r: Form)
    ensures tap.ColorTapped? ==> r.petType == f.petType && r.name == f.name && r.gender == f.gender
    ensures tap.ColorTapped? && tap.color in AvailableColors(f.petType) ==> r.color == tap.color
    ensures tap.ColorTapped? && tap.color !in AvailableColors(f.petType) ==> r == f
    ensures tap.NameTyped? ==> |r.name| <= NameMaxLength && r.(name := f.name) == f
    ensures tap.NameTyped? ==> r.name == if |tap.text| <= NameMaxLength then tap.text else tap.text[..NameMaxLength]
    ensures tap.GenderTapped? ==> r.(gender := f.gender) == f
    ensures tap.GenderTapped? && GenderOffered(tap.gender) ==> r.gender == tap.gender
    ensures tap.GenderTapped? && !GenderOffered(tap.gender) ==> r == f
    ensures tap.TypeTapped? ==> r == ChangePetType(f, tap.petType)
  {
    match tap
    case TypeTapped(t) => ChangePetType(f, t)
    case GenderTapped(g) => if GenderOffered(g) then f.(gender := g) else f
    case ColorTapped(c) => if c in AvailableColors(f.petType) then f.(color := c) else f
    case NameTyped(text) => f.(name := if |text| <= NameMaxLength then text else text[..NameMaxLength])
  }

  function Run(f: Form, taps: seq<Tap>): Form
    decreases |taps|
  {
    if |taps| == 0 then f else Run(Step(f, taps[0]), taps[1..])
  }

  /** The colour held is one the screen offers for the type held. */
  ghost predicate ColorAllowed(f: Form) {
    f.color in AvailableColors(f.petType)
  }

  /** Every single step keeps the colour allowed. */
  lemma StepKeepsColorAllowed(f: Form, tap: Tap)
    requires ColorAllowed(f)
    ensures ColorAllowed(Step(f, tap))
  {
  }

  /** Whatever the user taps, a cat never holds a dog-only colour. */
  lemma {:induction false} CatNeverDogColor(f: Form, taps: seq<Tap>)
    requires ColorAllowed(f)
    ensures ColorAllowed(Run(f, taps))
    ensures Run(f, taps).petType == Cat ==> Run(f, taps).color in {Base, Black}
    decreases |taps|
  {
    if |taps| > 0 {
      StepKeepsColorAllowed(f, taps[0]);
      CatNeverDogColor(Step(f, taps[0]), taps[1..]);
    }
  }

  /** The form the screen opens with satisfies the rule, so every reachable form does. */
  lemma ReachableFormsAllowed(taps: seq<Tap>)
    ensures ColorAllowed(Run(InitialForm, taps))
  {
    CatNeverDogColor(InitialForm, taps);
  }

  // ---------------------------------------------------------------------------
  // Submitting

  datatype CreateRequest = CreateRequest(name: string, petType: PetType, gender: Gender, color: PetColor)

  /** `handleCreate`: nothing when the trimmed name is empty, otherwise a request with the trimmed name. */
  function Submit(f: Form): (r: Option<CreateRequest>)
    ensures r.None? <==> AllSpace(f.name)
    ensures r.Some? ==> |r.value.name| > 0 && !IsSpace(r.value.name[0]) && !IsSpace(r.value.name[|r.value.name| - 1])
    ensures r.Some? ==> r.value.name == Trim(f.name)
    ensures r.Some? ==> r.value.petType == f.petType && r.value.gender == f.gender && r.value.color == f.color
  {
    var trimmed := Trim(f.name);
    if |trimmed| == 0 then None else Some(CreateRequest(trimmed, f.petType, f.gender, f.color))
  }

  /** The pet a submitted form creates, given the id and the time the store supplies. */
  function CreateFromForm(f: Form, id: string, now: int): (r: Option<Pet>)
    ensures r.None? <==> AllSpace(f.name)
    ensures r.Some? ==> r.value.name == Trim(f.name) && r.value.petType == f.petType
                        && r.value.gender == f.gender && r.value.color == f.color
  {
    match Submit(f)
    case None => None
    case Some(req) => PetStore.CreatePet(id, req.name, req.petType, req.gender, req.color, now)
  }

  /** A pet created through the screen has a non-blank trimmed name, and a cat one of the cat colours. */
  lemma CreatedFromScreen(taps: seq<Tap>, id: string, now: int)
    ensures var r := CreateFromForm(Run(InitialForm, taps), id, now);
            r.Some? ==>
            var p := r.value;
            && |p.name| > 0 && !IsSpace(p.name[0]) && !IsSpace(p.name[|p.name| - 1])
            && |p.name| <= NameMaxLength
            && (p.petType == Cat ==> p.color in {Base, Black})
            && Valid(p)
  {
    var f := Run(InitialForm, taps);
    ReachableFormsAllowed(taps);
    NameWithinLimit(InitialForm, taps);
  }

  /** The name held by the form never exceeds the text field's limit. */
  lemma {:induction false} NameWithinLimit(f: Form, taps: seq<Tap>)
    requires |f.name| <= NameMaxLength
    ensures |Run(f, taps).name| <= NameMaxLength
    decreases |taps|
  {
    if |taps| > 0 {
      NameWithinLimit(Step(f, taps[0]), taps[1..]);
    }
  }
}
