/**
 The pet's displayed age (`src/utils/age.ts`): one year at creation, one more
 per full week since, never above nineteen. The source reads the clock itself;
 here `now` is a parameter, and a missing `createdAt` is None.
 */
module Age {
  import opened Wrappers

  const MillisecondsPerWeek := 7 * 24 * 60 * 60 * 1000
  const InitialAge := 1
  const MaxAge := 19

  /** The guard of the source: a missing, negative or future creation time is not trusted. */
  predicate ValidCreation(createdAt: Option<int>, now: int) {
    createdAt.Some? && 0 <= createdAt.value <= now
  }

  /**
   `age` is the right age after `elapsed` milliseconds: below the cap it counts
   the started week, at the cap at least eighteen full weeks have passed.
   */
  ghost predicate AgeFits(age: int, elapsed: int) {
    || (InitialAge <= age < MaxAge
        && (age - InitialAge) * MillisecondsPerWeek <= elapsed < (age - InitialAge + 1) * MillisecondsPerWeek)
    || (age == MaxAge && elapsed >= (MaxAge - InitialAge) * MillisecondsPerWeek)
  }

  function CalculatePetAge(createdAt: Option<int>, now: int): (age: int)
    ensures InitialAge <= age <= MaxAge
    ensures !ValidCreation(createdAt, now) ==> age == InitialAge
    ensures ValidCreation(createdAt, now) ==> AgeFits(age, now - createdAt.value)
  {
    if createdAt.None? || createdAt.value < 0 || createdAt.value > now then
      InitialAge
    else
      var weeksPassed := (now - createdAt.value) / MillisecondsPerWeek;
      if InitialAge + weeksPassed <= MaxAge then InitialAge + weeksPassed else MaxAge
  }

  /** At most one age fits a given elapsed time, so AgeFits pins the result down. */
  lemma AgeFitsUnique(a1: int, a2: int, elapsed: int)
    requires AgeFits(a1, elapsed) && AgeFits(a2, elapsed)
    ensures a1 == a2
  {
  }

  /** For a fixed valid creation time the age never goes down as time passes. */
  lemma AgeMonotone(createdAt: int, now1: int, now2: int)
    requires 0 <= createdAt <= now1 <= now2
    ensures CalculatePetAge(Some(createdAt), now1) <= CalculatePetAge(Some(createdAt), now2)
  {
  }

  /** Less than one full week after creation the pet is one year old. */
  lemma AgeFirstWeek(createdAt: int, now: int)
    requires 0 <= createdAt <= now < createdAt + MillisecondsPerWeek
    ensures CalculatePetAge(Some(createdAt), now) == InitialAge
  {
    var a := CalculatePetAge(Some(createdAt), now);
    AgeFitsUnique(a, InitialAge, now - createdAt);
  }

  /** Each further full week adds exactly one year until the cap. */
  lemma AgeNextWeek(createdAt: int, now: int)
    requires 0 <= createdAt <= now
    ensures var a := CalculatePetAge(Some(createdAt), now);
            CalculatePetAge(Some(createdAt), now + MillisecondsPerWeek) == if a < MaxAge then a + 1 else MaxAge
  {
    var a := CalculatePetAge(Some(createdAt), now);
    var b := CalculatePetAge(Some(createdAt), now + MillisecondsPerWeek);
    var expected := if a < MaxAge then a + 1 else MaxAge;
    assert AgeFits(expected, now + MillisecondsPerWeek - createdAt);
    AgeFitsUnique(b, expected, now + MillisecondsPerWeek - createdAt);
  }

  /** The age by counting whole weeks one at a time; agrees with CalculatePetAge. */
  method CountAge(createdAt: Option<int>, now: int) returns (age: int)
    ensures age == CalculatePetAge(createdAt, now)
  {
    age := InitialAge;
    if !ValidCreation(createdAt, now) {
      return;
    }
    var remaining := now - createdAt.value;
    while age < MaxAge && remaining >= MillisecondsPerWeek
      invariant InitialAge <= age <= MaxAge
      invariant remaining >= 0
      invariant remaining + (age - InitialAge) * MillisecondsPerWeek == now - createdAt.value
      decreases remaining
    {
      remaining := remaining - MillisecondsPerWeek;
      age := age + 1;
    }
    assert AgeFits(age, now - createdAt.value);
    AgeFitsUnique(age, CalculatePetAge(createdAt, now), now - createdAt.value);
  }
}
