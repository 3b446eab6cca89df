/**
 * The contacts repository: reads the technicians or the providers list, maps
 * each raw entry to a contact (its type decided by a case-insensitive match
 * on "technician"), and sorts stably: emergency contacts first, then
 * favourites, then by lower-cased name.
 */
module ContactsRepository {
  import opened Wrappers
  import opened KotlinText

  datatype ContactType = Technician | Provider

  /** An entry as it appears in a contacts asset. */
  datatype ContactRaw = ContactRaw(
    id: string,
    contactType: string,
    name: string,
    company: Option<string>,
    roles: Option<seq<string>>,
    specialties: Option<seq<string>>,
    phones: Option<seq<string>>,
    whatsapp: Option<string>,
    emails: Option<seq<string>>,
    location: Option<string>,
    coverage: Option<seq<string>>,
    isEmergency: bool,
    isFavorite: bool,
    notes: Option<string>)

  datatype Contact = Contact(
    id: string,
    contactType: ContactType,
    name: string,
    company: Option<string>,
    roles: Option<seq<string>>,
    specialties: Option<seq<string>>,
    phones: Option<seq<string>>,
    whatsapp: Option<string>,
    emails: Option<seq<string>>,
    location: Option<string>,
    coverage: Option<seq<string>>,
    isEmergency: bool,
    isFavorite: bool,
    notes: Option<string>)

  /** The parsed contents of the two contacts assets. */
  datatype ContactsSource = ContactsSource(technicians: seq<ContactRaw>, providers: seq<ContactRaw>)

  /** The asset list a contact type reads. */
  function RawsFor(source: ContactsSource, t: ContactType): (raws: seq<ContactRaw>)
    ensures t == Technician ==> raws == source.technicians
    ensures t == Provider ==> raws == source.providers
  {
    match t
    case Technician => source.technicians
    case Provider => source.providers
  }

  /** One raw entry as a contact: TECHNICIAN exactly for "technician" in any case, every other field copied. */
  function MapContact(raw: ContactRaw): (c: Contact)
    ensures c.contactType == Technician <==> EqualsIgnoreCase(raw.contactType, "technician")
    ensures c.contactType == Provider <==> !EqualsIgnoreCase(raw.contactType, "technician")
    ensures c.contactType == Technician <==> Upper(raw.contactType) == "TECHNICIAN"
    ensures c.id == raw.id && c.name == raw.name && c.company == raw.company && c.roles == raw.roles
    ensures c.specialties == raw.specialties && c.phones == raw.phones && c.whatsapp == raw.whatsapp
    ensures c.emails == raw.emails && c.location == raw.location && c.coverage == raw.coverage
    ensures c.isEmergency == raw.isEmergency && c.isFavorite == raw.isFavorite && c.notes == raw.notes
  {
    EqualsIgnoreCaseIsUpperEquality(raw.contactType, "technician");
    assert Upper("technician") == "TECHNICIAN";
    Contact(raw.id, if EqualsIgnoreCase(raw.contactType, "technician") then Technician else Provider,
            raw.name, raw.company, raw.roles, raw.specialties, raw.phones, raw.whatsapp, raw.emails,
            raw.location, raw.coverage, raw.isEmergency, raw.isFavorite, raw.notes)
  }

  function MapContacts(raws: seq<ContactRaw>): (cs: seq<Contact>)
    ensures |cs| == |raws| && forall i :: 0 <= i < |raws| ==> cs[i] == MapContact(raws[i])
  {
    seq(|raws|, i requires 0 <= i < |raws| => MapContact(raws[i]))
  }

  // ---- The order ----

  /**
   * The comparator says `a` sorts strictly before `b`: emergency first, then
   * favourite first, then the lower-cased name in ascending order.
   */
  predicate Precedes(a: Contact, b: Contact) {
    || (a.isEmergency && !b.isEmergency)
    || (a.isEmergency == b.isEmergency && a.isFavorite && !b.isFavorite)
    || (a.isEmergency == b.isEmergency && a.isFavorite == b.isFavorite && StrLess(Lower(a.name), Lower(b.name)))
  }

  /** The comparator finds `a` and `b` equal: same flags and the same lower-cased name. */
  predicate Tied(a: Contact, b: Contact) {
    a.isEmergency == b.isEmergency && a.isFavorite == b.isFavorite && Lower(a.name) == Lower(b.name)
  }

  /** `Boolean.compareTo`: `false` before `true`. */
  function BoolCompare(x: bool, y: bool): int {
    if x == y then 0 else if x then 1 else -1
  }

  /**
   * The comparator `compareByDescending { isEmergency }.thenByDescending { isFavorite }
   * .thenBy { name.lowercase() }`: the first key that differs decides, and its sign
   * is the order `Precedes` states.
   */
  function Compare(a: Contact, b: Contact): (r: int)
    ensures r < 0 <==> Precedes(a, b)
    ensures r == 0 <==> Tied(a, b)
    ensures r > 0 <==> Precedes(b, a)
  {
    var byEmergency := BoolCompare(b.isEmergency, a.isEmergency);
    var byFavorite := BoolCompare(b.isFavorite, a.isFavorite);
    if byEmergency != 0 then byEmergency
    else if byFavorite != 0 then byFavorite
    else StrCompare(Lower(a.name), Lower(b.name))
  }

  /** For any two contacts exactly one of: `a` first, `b` first, tied. */
  lemma Trichotomy(a: Contact, b: Contact)
    ensures Precedes(a, b) || Precedes(b, a) || Tied(a, b)
    ensures !(Precedes(a, b) && Precedes(b, a))
    ensures Tied(a, b) ==> !Precedes(a, b) && !Precedes(b, a)
  {
    StrLessTotal(Lower(a.name), Lower(b.name));
    if StrLess(Lower(a.name), Lower(b.name)) && StrLess(Lower(b.name), Lower(a.name)) {
      StrLessTransitive(Lower(a.name), Lower(b.name), Lower(a.name));
      StrLessIrreflexive(Lower(a.name));
    }
    StrLessIrreflexive(Lower(a.name));
  }

  lemma PrecedesTransitive(a: Contact, b: Contact, c: Contact)
    requires Precedes(a, b) && Precedes(b, c)
    ensures Precedes(a, c)
  {
    if StrLess(Lower(a.name), Lower(b.name)) && StrLess(Lower(b.name), Lower(c.name)) {
      StrLessTransitive(Lower(a.name), Lower(b.name), Lower(c.name));
    }
  }

  /** No element sorts strictly before an earlier one. */
  predicate Sorted(s: seq<Contact>) {
    forall i, j :: 0 <= i < j < |s| ==> !Precedes(s[j], s[i])
  }

  /** The contacts of `s` tied with `c`, in their order in `s`. */
  function TieClass(s: seq<Contact>, c: Contact): seq<Contact> {
    if s == [] then [] else (if Tied(s[0], c) then [s[0]] else []) + TieClass(s[1..], c)
  }

  // ---- The sort ----

  /** Inserts `x`, which came before all of `s`, ahead of the first entry that does not sort strictly before it. */
  function Insert(x: Contact, s: seq<Contact>): (r: seq<Contact>)
    ensures multiset(r) == multiset(s) + multiset{x}
  {
    if s == [] || !Precedes(s[0], x) then [x] + s
    else
      assert s == [s[0]] + s[1..];
      [s[0]] + Insert(x, s[1..])
  }

  /**
   * `sortedWith` on the composed comparator, which is stable: each entry is
   * inserted into the sorted rest ahead of the entries it is tied with.
   */
  function SortContacts(s: seq<Contact>): (r: seq<Contact>)
    ensures multiset(r) == multiset(s) && |r| == |s|
  {
    if s == [] then []
    else
      assert s == [s[0]] + s[1..];
      Insert(s[0], SortContacts(s[1..]))
  }

  /** If `b` does not sort before `a` and `b` sorts before `x`, then `a` sorts before `x`. */
  lemma InOrderThenPrecedes(a: Contact, b: Contact, x: Contact)
    requires !Precedes(b, a) && Precedes(b, x)
    ensures Precedes(a, x)
  {
    Trichotomy(a, b);
    if Precedes(a, b) {
      PrecedesTransitive(a, b, x);
    }
  }

  /** A contact that sorts strictly before `x` is not in `x`'s tie class. */
  lemma PrecedingNotTied(a: Contact, x: Contact, c: Contact)
    requires Precedes(a, x) && Tied(x, c)
    ensures !Tied(a, c)
  {
    Trichotomy(a, x);
  }

  lemma {:induction false} InsertSorted(x: Contact, s: seq<Contact>)
    requires Sorted(s)
    ensures Sorted(Insert(x, s))
  {
    if s == [] || !Precedes(s[0], x) {
      var r := [x] + s;
      forall i, j | 0 <= i < j < |r|
        ensures !Precedes(r[j], r[i])
      {
        if i == 0 && j > 1 && Precedes(s[j - 1], x) {
          InOrderThenPrecedes(s[0], s[j - 1], x);
        }
      }
    } else {
      var tail := Insert(x, s[1..]);
      InsertSorted(x, s[1..]);
      var r := [s[0]] + tail;
      forall i, j | 0 <= i < j < |r|
        ensures !Precedes(r[j], r[i])
      {
        if i == 0 {
          assert r[j] in multiset(tail);
          assert r[j] in multiset(s[1..]) || r[j] == x;
          if r[j] == x {
            Trichotomy(s[0], x);
          } else {
            var k :| 0 <= k < |s[1..]| && s[1..][k] == r[j];
            assert s[k + 1] == r[j];
          }
        } else {
          assert r[i] == tail[i - 1] && r[j] == tail[j - 1];
        }
      }
    }
  }

  /** Inserting `x` puts it at the head of its tie class and leaves every other tie class as it was. */
  lemma {:induction false} InsertTieClass(x: Contact, s: seq<Contact>, c: Contact)
    ensures TieClass(Insert(x, s), c) == (if Tied(x, c) then [x] else []) + TieClass(s, c)
  {
    var own := if Tied(x, c) then [x] else [];
    if s == [] || !Precedes(s[0], x) {
      var r := [x] + s;
      assert r[0] == x && r[1..] == s;
      assert Insert(x, s) == r;
      assert TieClass(r, c) == own + TieClass(s, c);
    } else {
      var rest := Insert(x, s[1..]);
      var r := [s[0]] + rest;
      assert r[0] == s[0] && r[1..] == rest;
      var head := if Tied(s[0], c) then [s[0]] else [];
      var later := TieClass(s[1..], c);
      InsertTieClass(x, s[1..], c);
      assert TieClass(r, c) == head + (own + later);
      assert TieClass(s, c) == head + later;
      assert Insert(x, s) == r;
      if Tied(x, c) {
        PrecedingNotTied(s[0], x, c);
        assert head == [];
        assert TieClass(r, c) == own + later;
        assert TieClass(s, c) == later;
      } else {
        assert own == [];
        assert TieClass(r, c) == head + later;
        assert own + TieClass(s, c) == TieClass(s, c);
      }
    }
  }

  /** The result is ordered by the comparator. */
  lemma {:induction false} SortContactsSorted(s: seq<Contact>)
    ensures Sorted(SortContacts(s))
  {
    if s != [] {
      SortContactsSorted(s[1..]);
      InsertSorted(s[0], SortContacts(s[1..]));
    }
  }

  /** The sort is stable: the contacts tied with any `c` keep their source order. */
  lemma {:induction false} SortContactsStable(s: seq<Contact>, c: Contact)
    ensures TieClass(SortContacts(s), c) == TieClass(s, c)
  {
    if s != [] {
      SortContactsStable(s[1..], c);
      InsertTieClass(s[0], SortContacts(s[1..]), c);
    }
  }

  /** `getContacts(type)`: the list for `type`, mapped and sorted. */
  function GetContacts(source: ContactsSource, t: ContactType): (r: seq<Contact>)
    ensures multiset(r) == multiset(MapContacts(RawsFor(source, t)))
    ensures |r| == |RawsFor(source, t)|
  {
    SortContacts(MapContacts(RawsFor(source, t)))
  }

  /**
   * What `getContacts` returns: the entries of the list for the type, mapped,
   * ordered by the comparator, with tied entries in their asset order.
   */
  lemma GetContactsSpec(source: ContactsSource, t: ContactType)
    ensures var r := GetContacts(source, t);
      && multiset(r) == multiset(MapContacts(RawsFor(source, t)))
      && Sorted(r)
      && forall c :: TieClass(r, c) == TieClass(MapContacts(RawsFor(source, t)), c)
  {
    SortContactsSorted(MapContacts(RawsFor(source, t)));
    forall c {
      SortContactsStable(MapContacts(RawsFor(source, t)), c);
    }
  }
}
