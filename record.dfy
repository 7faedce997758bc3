/** One contact: a normalised name fixed at creation, an ordered list of phones that the methods
    change in place, and an optional birthday. */
module Records {
  import opened Wrappers
  import opened Calendar
  import opened Fields

  /** The index `__get_phone_index` finds: the position of the first phone whose value is `number`. */
  function FirstIndex(phones: seq<Phone>, number: string): (r: Option<nat>)
    ensures r.None? <==> Phone(number) !in phones
    ensures r.Some? ==> r.value < |phones| && phones[r.value] == Phone(number) && Phone(number) !in phones[..r.value]
  {
    if phones == [] then None
    else if phones[0].value == number then Some(0)
    else
      match FirstIndex(phones[1..], number)
      case None => None
      case Some(i) =>
        assert phones[..i + 1] == [phones[0]] + phones[1..][..i];
        Some(i + 1)
  }

  /** The first occurrence is the only position holding the number with none before it. */
  lemma FirstIndexUnique(phones: seq<Phone>, number: string, i: nat)
    requires i < |phones| && phones[i] == Phone(number) && Phone(number) !in phones[..i]
    ensures FirstIndex(phones, number) == Some(i)
  {
  }

  /** No number twice: what `add_phone` keeps and `edit_phone` does not. */
  predicate Distinct(phones: seq<Phone>)
  {
    forall i, j :: 0 <= i < j < |phones| ==> phones[i] != phones[j]
  }

  /** Appending a number that is absent keeps the list free of repeats. */
  lemma AppendKeepsDistinct(phones: seq<Phone>, p: Phone)
    requires Distinct(phones) && p !in phones
    ensures Distinct(phones + [p])
  {
  }

  /** Popping the first occurrence of a number takes out exactly one copy of it and keeps the rest. */
  lemma RemoveFirstOccurrence(phones: seq<Phone>, number: string)
    requires Phone(number) in phones
    ensures var i := FirstIndex(phones, number).value;
      multiset(phones[..i] + phones[i + 1..]) == multiset(phones) - multiset{Phone(number)}
  {
    var i := FirstIndex(phones, number).value;
    RemoveAt(phones, i);
  }

  /** Dropping position `i` takes one copy of that element out of the multiset. */
  lemma RemoveAt(s: seq<Phone>, i: nat)
    requires i < |s|
    ensures multiset(s[..i] + s[i + 1..]) == multiset(s) - multiset{s[i]}
  {
    var front, back := s[..i], s[i + 1..];
    assert s == front + [s[i]] + back;
    assert multiset(s) == multiset(front) + multiset{s[i]} + multiset(back);
    assert multiset(front + back) == multiset(front) + multiset(back);
  }

  /** Two phones are without repeats exactly when they differ. */
  lemma PairDistinct(x: Phone, y: Phone)
    ensures Distinct([x, y]) <==> x != y
  {
    if x == y {
      assert [x, y][0] == [x, y][1];
    }
  }

  /** In a list without repeats, popping a number leaves a list without repeats and without it. */
  lemma RemoveFromDistinct(phones: seq<Phone>, i: nat)
    requires Distinct(phones) && i < |phones|
    ensures Distinct(phones[..i] + phones[i + 1..])
    ensures phones[i] !in phones[..i] + phones[i + 1..]
  {
    var rest := phones[..i] + phones[i + 1..];
    forall a, b | 0 <= a < b < |rest| ensures rest[a] != rest[b] {
      var a', b' := if a < i then a else a + 1, if b < i then b else b + 1;
      assert rest[a] == phones[a'] && rest[b] == phones[b'];
    }
  }

  class Record {
    const name: string
    var phones: seq<Phone>
    var birthday: Option<Date>

    /** Every stored phone passed Phone's check and every stored birthday is a real date. */
    ghost predicate Valid()
      reads this
    {
      (forall i :: 0 <= i < |phones| ==> IsPhoneNumber(phones[i].value)) &&
      (birthday.Some? ==> ValidDate(birthday.value))
    }

    /** `Record(raw)`: the name normalised, no phones, no birthday. */
    constructor (raw: string)
      ensures Valid()
      ensures name == NormalizeName(raw) && phones == [] && birthday == None
    {
      name := NormalizeName(raw);
      phones := [];
      birthday := None;
    }

    /** `__get_phone_index`: scan the phones in order and stop at the first match. */
    method GetPhoneIndex(number: string) returns (index: Option<nat>)
      ensures index == FirstIndex(phones, number)
    {
      var i := 0;
      while i < |phones|
        invariant 0 <= i <= |phones|
        invariant Phone(number) !in phones[..i]
      {
        if phones[i].value == number {
          FirstIndexUnique(phones, number, i);
          return Some(i);
        }
        assert phones[..i + 1] == phones[..i] + [phones[i]];
        i := i + 1;
      }
      assert phones[..i] == phones;
      return None;
    }

    /** `add_phone`: false for a number already present, PhoneFormatError for a malformed one,
        otherwise the phone goes to the end of the list and the answer is true; a list without
        repeats stays without repeats. */
    method AddPhone(number: string) returns (r: Result<bool>)
      requires Valid()
      modifies this
      ensures Valid() && birthday == old(birthday)
      ensures Phone(number) in old(phones) ==> r == Ok(false) && phones == old(phones)
      ensures Phone(number) !in old(phones) && IsPhoneNumber(number) ==>
        r == Ok(true) && phones == old(phones) + [Phone(number)]
      ensures Phone(number) !in old(phones) && !IsPhoneNumber(number) ==>
        r == Err(PhoneFormatError) && phones == old(phones)
      ensures Distinct(old(phones)) ==> Distinct(phones)
    {
      var index := GetPhoneIndex(number);
      if index.None? {
        var phone := NewPhone(number);
        if phone.Err? {
          return Err(phone.error);
        }
        if Distinct(phones) {
          AppendKeepsDistinct(phones, phone.value);
        }
        phones := phones + [phone.value];
        return Ok(true);
      }
      return Ok(false);
    }

    /** `remove_phone`: pops the first phone equal to `number` and says whether there was one; in a
        list without repeats that takes the number out altogether. */
    method RemovePhone(number: string) returns (removed: bool)
      requires Valid()
      modifies this
      ensures Valid() && birthday == old(birthday)
      ensures removed <==> Phone(number) in old(phones)
      ensures removed ==> var i := FirstIndex(old(phones), number).value;
        phones == old(phones)[..i] + old(phones)[i + 1..]
      ensures !removed ==> phones == old(phones)
      ensures Distinct(old(phones)) ==> Distinct(phones) && Phone(number) !in phones
    {
      var index := GetPhoneIndex(number);
      if index.Some? {
        var i := index.value;
        if Distinct(phones) {
          RemoveFromDistinct(phones, i);
        }
        phones := phones[..i] + phones[i + 1..];
        return true;
      }
      return false;
    }

    /** `edit_phone`: replaces the first phone equal to `oldNumber` where it stands. An absent
        `oldNumber` gives false without looking at `newNumber`; a malformed `newNumber` raises
        PhoneFormatError before anything changes. `newNumber` is not checked against the other
        phones, so the list can end up holding a number twice. */
    method EditPhone(oldNumber: string, newNumber: string) returns (r: Result<bool>)
      requires Valid()
      modifies this
      ensures Valid() && birthday == old(birthday)
      ensures Phone(oldNumber) !in old(phones) ==> r == Ok(false) && phones == old(phones)
      ensures Phone(oldNumber) in old(phones) && !IsPhoneNumber(newNumber) ==>
        r == Err(PhoneFormatError) && phones == old(phones)
      ensures Phone(oldNumber) in old(phones) && IsPhoneNumber(newNumber) ==>
        r == Ok(true) && phones == old(phones)[FirstIndex(old(phones), oldNumber).value := Phone(newNumber)]
    {
      var index := GetPhoneIndex(oldNumber);
      if index.Some? {
        var phone := NewPhone(newNumber);
        if phone.Err? {
          return Err(phone.error);
        }
        phones := phones[index.value := phone.value];
        return Ok(true);
      }
      return Ok(false);
    }

    /** `find_phone` as written: it tests the index for truth, and index 0 is false in Python, so a
        number stored first is reported as missing. */
    method FindPhone(number: string) returns (r: string)
      ensures r == if Phone(number) in phones && phones[0] != Phone(number) then number else ""
    {
      var index := GetPhoneIndex(number);
      r := if index.Some? && index.value != 0 then number else "";
    }

    /** `find_phone` as intended: `number` when some phone has that value, else the empty string. */
    method FindPhoneIntended(number: string) returns (r: string)
      ensures r == if Phone(number) in phones then number else ""
    {
      var index := GetPhoneIndex(number);
      r := if index.Some? then number else "";
    }

    /** `add_birthday`: parses the text and stores the date over any earlier one; a parse failure
        raises and leaves the record as it was. */
    method AddBirthday(raw: string) returns (r: Result<()>)
      requires Valid()
      modifies this
      ensures Valid() && phones == old(phones)
      ensures ParseBirthday(raw).Ok? ==> r == Ok(()) && birthday == Some(ParseBirthday(raw).value)
      ensures ParseBirthday(raw).Err? ==> r == Err(ParseBirthday(raw).error) && birthday == old(birthday)
    {
      var date := ParseBirthday(raw);
      if date.Err? {
        return Err(date.error);
      }
      birthday := Some(date.value);
      return Ok(());
    }
  }

  /** A new record whatever its name: valid, without phones and without a birthday. */
  method EmptyRecord(name: string) returns (record: Record)
    ensures fresh(record) && record.Valid() && record.phones == [] && record.birthday == None
  {
    record := new Record(name);
  }

  /** A well-formed number stored at index 0 is not found by `find_phone`, though it is there. */
  method FindPhoneMissesFirstPhone(name: string, number: string) returns (found: string, intended: string)
    requires IsPhoneNumber(number)
    ensures found == "" && intended == number
  {
    var record := EmptyRecord(name);
    var added := record.AddPhone(number);
    found := record.FindPhone(number);
    intended := record.FindPhoneIntended(number);
  }

  /** Adding the same well-formed number twice succeeds once, then answers false, leaving one entry. */
  method AddPhoneTwice(name: string, number: string) returns (first: Result<bool>, second: Result<bool>, phones: seq<Phone>)
    requires IsPhoneNumber(number)
    ensures first == Ok(true) && second == Ok(false) && phones == [Phone(number)]
  {
    var record := EmptyRecord(name);
    first := record.AddPhone(number);
    second := record.AddPhone(number);
    phones := record.phones;
  }

  /** `edit_phone` turns two different numbers into the same number twice when the second is
      edited into the first: a list without repeats becomes one with a repeat. */
  method EditPhoneCanDuplicate(name: string, p: string, q: string) returns (before: seq<Phone>, after: seq<Phone>)
    requires IsPhoneNumber(p) && IsPhoneNumber(q) && p != q
    ensures before == [Phone(p), Phone(q)] && after == [Phone(p), Phone(p)]
    ensures Distinct(before) && !Distinct(after)
  {
    var record := EmptyRecord(name);
    var a := record.AddPhone(p);
    var b := record.AddPhone(q);
    before := record.phones;
    assert before[..1] == [Phone(p)];
    FirstIndexUnique(before, q, 1);
    var edited := record.EditPhone(q, p);
    after := record.phones;
    PairDistinct(Phone(p), Phone(q));
    PairDistinct(Phone(p), Phone(p));
  }
}
