/** The people list of rust-people-db/src/person.rs: the `Person` record
    and the three functions that change a `Vec<Person>` in place. */
module People {
  import opened Wrappers
  import opened Decimal
  import opened Sports

  /** A chrono `NaiveDate`, kept as its three fields; calendar validity is
      chrono's concern. */
  datatype Date = Date(year: int, month: nat, day: nat)

  datatype Person = Person(firstName: string, lastName: string, dateOfBirth: Date, favoriteSport: Sport)

  /** `Person::new` */
  function NewPerson(firstName: string, lastName: string, dateOfBirth: Date, favoriteSport: Sport): (p: Person)
    ensures p.firstName == firstName && p.lastName == lastName
    ensures p.dateOfBirth == dateOfBirth && p.favoriteSport == favoriteSport
  {
    Person(firstName, lastName, dateOfBirth, favoriteSport)
  }

  /** `Person::get_favorite_sport_emoji` */
  function FavoriteSportEmoji(p: Person): (e: string)
    ensures e == "" <==> p.favoriteSport.Other?
  {
    Emoji(p.favoriteSport)
  }

  /** The message of the error for an index past the end. */
  function IndexOutOfBounds(index: nat): string {
    "Index out of bounds: " + DecimalString(index)
  }

  /** The error text names the rejected index: its digits read back as it. */
  lemma IndexOutOfBoundsNamesIndex(index: nat)
    ensures var r := IndexOutOfBounds(index);
      && |r| > 21 && r[..21] == "Index out of bounds: "
      && AllDigits(r[21..]) && DigitsValue(r[21..]) == index
  {
    var r := IndexOutOfBounds(index);
    assert r[21..] == DecimalString(index);
    DecimalRoundTrip(index);
  }

  /** `Vec::remove(index)`: the element at `index` is gone, the elements
      before it stay put and those after it move down by one. */
  function RemoveAt(s: seq<Person>, index: nat): (r: seq<Person>)
    requires index < |s|
    ensures |r| == |s| - 1
    ensures forall j :: 0 <= j < index ==> r[j] == s[j]
    ensures forall j :: index <= j < |r| ==> r[j] == s[j + 1]
  {
    s[..index] + s[index + 1..]
  }

  /** `people[index] = person` */
  function ReplaceAt(s: seq<Person>, index: nat, p: Person): (r: seq<Person>)
    requires index < |s|
    ensures |r| == |s| && r[index] == p
    ensures forall j :: 0 <= j < |s| && j != index ==> r[j] == s[j]
  {
    s[index := p]
  }

  /** The `Vec<Person>` the functions of person.rs are handed by `&mut`. */
  class PeopleList {
    var people: seq<Person>

    constructor (people: seq<Person>)
      ensures this.people == people
    {
      this.people := people;
    }

    /** `add_person`: always succeeds, appending the person at the end. */
    method AddPerson(person: Person) returns (r: Result<(), string>)
      modifies this
      ensures r == Success(())
      ensures people == old(people) + [person]
    {
      people := people + [person];
      r := Success(());
    }

    /** `delete_person`: an index inside the list removes that element;
        any other index is an error and changes nothing. */
    method DeletePerson(index: nat) returns (r: Result<(), string>)
      modifies this
      ensures index < |old(people)| ==> r == Success(()) && people == RemoveAt(old(people), index)
      ensures index >= |old(people)| ==> r == Failure(IndexOutOfBounds(index)) && people == old(people)
    {
      if index < |people| {
        people := RemoveAt(people, index);
        r := Success(());
      } else {
        r := Failure(IndexOutOfBounds(index));
      }
    }

    /** `edit_person`: an index inside the list replaces that element; any
        other index is an error and changes nothing. */
    method EditPerson(index: nat, person: Person) returns (r: Result<(), string>)
      modifies this
      ensures index < |old(people)| ==> r == Success(()) && people == ReplaceAt(old(people), index, person)
      ensures index >= |old(people)| ==> r == Failure(IndexOutOfBounds(index)) && people == old(people)
    {
      if index < |people| {
        people := ReplaceAt(people, index, person);
        r := Success(());
      } else {
        r := Failure(IndexOutOfBounds(index));
      }
    }
  }

  // ---------------------------------------------------------------------
  // Properties

  /** Removing keeps every other person, once each: the list loses exactly
      the removed element. */
  lemma RemoveAtMultiset(s: seq<Person>, index: nat)
    requires index < |s|
    ensures multiset(RemoveAt(s, index)) + multiset{s[index]} == multiset(s)
  {
    assert s == s[..index] + [s[index]] + s[index + 1..];
  }

  /** Deleting the person just added gives the list back. */
  lemma RemoveAfterAppend(s: seq<Person>, p: Person)
    ensures RemoveAt(s + [p], |s|) == s
  {
    assert (s + [p])[..|s|] == s;
  }

  /** Putting back the person that was there changes nothing, and a second
      edit at the same index overrides the first. */
  lemma ReplaceAtProperties(s: seq<Person>, index: nat, p: Person, q: Person)
    requires index < |s|
    ensures ReplaceAt(s, index, s[index]) == s
    ensures ReplaceAt(ReplaceAt(s, index, p), index, q) == ReplaceAt(s, index, q)
  {
  }

  /** Editing a position and then deleting it is the same as deleting it. */
  lemma {:induction false} RemoveAfterReplace(s: seq<Person>, index: nat, p: Person)
    requires index < |s|
    ensures RemoveAt(ReplaceAt(s, index, p), index) == RemoveAt(s, index)
  {
    var a := RemoveAt(ReplaceAt(s, index, p), index);
    var b := RemoveAt(s, index);
    assert |a| == |b|;
    forall j | 0 <= j < |a| ensures a[j] == b[j] {
      if j < index {
        assert a[j] == ReplaceAt(s, index, p)[j];
      } else {
        assert a[j] == ReplaceAt(s, index, p)[j + 1];
      }
    }
  }
}
