/**
 * The decisions the contacts screen makes: which tab is selected and which
 * list it shows, whether the list renders the empty state, which contact
 * chips appear, and the URIs the chips open (a WhatsApp number first cleaned
 * down to its digits and '+').
 */
module ContactsScreen {
  import opened Wrappers
  import opened KotlinText
  import opened ContactsRepository

  /** `coerceIn(0, 1)`: the nearest tab index to the requested one. */
  function ClampTab(initialTab: int): (tab: int)
    ensures 0 <= tab <= 1
    ensures 0 <= initialTab <= 1 ==> tab == initialTab
    ensures initialTab < 0 ==> tab == 0
    ensures initialTab > 1 ==> tab == 1
  {
    if initialTab < 0 then 0 else if initialTab > 1 then 1 else initialTab
  }

  /** The selected-tab state: tab 0 lists technicians and any other index lists providers. */
  class ContactsTabs {
    var tab: int

    ghost predicate Valid()
      reads this
    {
      0 <= tab <= 1
    }

    constructor (initialTab: int)
      ensures Valid() && tab == ClampTab(initialTab)
      ensures forall ts, ps :: Items(ts, ps) == if initialTab <= 0 then ts else ps
    {
      tab := ClampTab(initialTab);
    }

    /** A click on the `i`-th of the two tabs selects it. */
    method OnTabClick(i: int)
      requires Valid() && 0 <= i < 2
      modifies this
      ensures Valid() && tab == i
      ensures forall ts, ps :: Items(ts, ps) == if i == 0 then ts else ps
    {
      tab := i;
    }

    /** The list the screen shows for the selected tab. */
    function Items(technicians: seq<Contact>, providers: seq<Contact>): (items: seq<Contact>)
      reads this
      ensures tab == 0 ==> items == technicians
      ensures tab != 0 ==> items == providers
    {
      if tab == 0 then technicians else providers
    }
  }

  /** What the list renders: the empty-state item alone, or one card per contact. */
  datatype ListContent = EmptyState | Cards(contacts: seq<Contact>)

  function ContentFor(items: seq<Contact>): (content: ListContent)
    ensures content == EmptyState <==> items == []
    ensures content.Cards? ==> content.contacts == items && |content.contacts| > 0
  {
    if items == [] then EmptyState else Cards(items)
  }

  /**
   * The list shown for a contact type renders the empty state exactly when its
   * asset list is empty; otherwise its cards are that list's entries, mapped
   * and ordered by the comparator.
   */
  lemma ShownContent(source: ContactsSource, t: ContactType)
    ensures ContentFor(GetContacts(source, t)) == EmptyState <==> RawsFor(source, t) == []
    ensures var content := ContentFor(GetContacts(source, t));
      content.Cards? ==> && |content.contacts| == |RawsFor(source, t)|
                         && multiset(content.contacts) == multiset(MapContacts(RawsFor(source, t)))
                         && Sorted(content.contacts)
  {
    GetContactsSpec(source, t);
  }

  // ---- The WhatsApp number ----

  /** The characters the WhatsApp filter keeps. */
  predicate KeptInWhatsApp(c: char) {
    IsDigit(c) || c == '+'
  }

  /** `number.filter { it.isDigit() || it == '+' }`. */
  function CleanWhatsApp(number: string): (clean: string)
    ensures |clean| <= |number|
    ensures forall i :: 0 <= i < |clean| ==> KeptInWhatsApp(clean[i])
  {
    if number == [] then []
    else (if KeptInWhatsApp(number[0]) then [number[0]] else []) + CleanWhatsApp(number[1..])
  }

  /** Every kept character survives as often as it occurs; every other one is gone. */
  lemma {:induction false} CleanWhatsAppCounts(number: string, c: char)
    ensures multiset(CleanWhatsApp(number))[c] == if KeptInWhatsApp(c) then multiset(number)[c] else 0
  {
    if number != [] {
      CleanWhatsAppCounts(number[1..], c);
      assert number == [number[0]] + number[1..];
    }
  }

  /** `xs` is `ys` with some entries removed, the rest kept in order. */
  predicate IsSubsequence(xs: string, ys: string) {
    if xs == [] then true
    else if ys == [] then false
    else if xs[0] == ys[0] then IsSubsequence(xs[1..], ys[1..])
    else IsSubsequence(xs, ys[1..])
  }

  /** The filter keeps its characters in their original order. */
  lemma {:induction false} CleanWhatsAppKeepsOrder(number: string)
    ensures IsSubsequence(CleanWhatsApp(number), number)
  {
    if number != [] {
      CleanWhatsAppKeepsOrder(number[1..]);
      var rest := CleanWhatsApp(number[1..]);
      if rest != [] {
        assert KeptInWhatsApp(rest[0]);
      }
      if KeptInWhatsApp(number[0]) {
        assert ([number[0]] + rest)[1..] == rest;
        assert CleanWhatsApp(number) == [number[0]] + rest;
      } else {
        assert CleanWhatsApp(number) == rest;
        if rest != [] {
          assert rest[0] != number[0];
        }
      }
    }
  }

  /** Cleaning a concatenation cleans each part. */
  lemma {:induction false} CleanWhatsAppAppend(a: string, b: string)
    ensures CleanWhatsApp(a + b) == CleanWhatsApp(a) + CleanWhatsApp(b)
  {
    if a == [] {
      assert a + b == b;
    } else {
      var keep := if KeptInWhatsApp(a[0]) then [a[0]] else [];
      assert (a + b)[0] == a[0] && (a + b)[1..] == a[1..] + b;
      calc {
        CleanWhatsApp(a + b);
        keep + CleanWhatsApp(a[1..] + b);
        { CleanWhatsAppAppend(a[1..], b); }
        keep + (CleanWhatsApp(a[1..]) + CleanWhatsApp(b));
        (keep + CleanWhatsApp(a[1..])) + CleanWhatsApp(b);
      }
    }
  }

  /** A number is left as it is exactly when it holds only digits and '+'. */
  lemma {:induction false} CleanWhatsAppFixedPoints(number: string)
    ensures CleanWhatsApp(number) == number <==> forall i :: 0 <= i < |number| ==> KeptInWhatsApp(number[i])
  {
    if number != [] {
      CleanWhatsAppFixedPoints(number[1..]);
      if !KeptInWhatsApp(number[0]) {
        assert |CleanWhatsApp(number)| < |number|;
      } else {
        assert forall i :: 1 <= i < |number| ==> number[i] == number[1..][i - 1];
      }
    }
  }

  /** Cleaning twice is cleaning once. */
  lemma CleanWhatsAppIdempotent(number: string)
    ensures CleanWhatsApp(CleanWhatsApp(number)) == CleanWhatsApp(number)
  {
    CleanWhatsAppFixedPoints(CleanWhatsApp(number));
  }

  // ---- The URIs ----

  const DialScheme := "tel:"
  const WhatsAppBase := "https://wa.me/"
  const MailScheme := "mailto:"

  /** What `uri` carries after `scheme`, or None when it does not start with `scheme`. */
  function SchemePayload(scheme: string, uri: string): (payload: Option<string>)
    ensures payload.Some? <==> |scheme| <= |uri| && uri[..|scheme|] == scheme
    ensures payload.Some? ==> uri == scheme + payload.value
  {
    if |scheme| <= |uri| && uri[..|scheme|] == scheme then Some(uri[|scheme|..]) else None
  }

  /** The dial URI for `phone`, and the phone it carries. */
  function DialUri(phone: string): (uri: string)
    ensures |uri| == |DialScheme| + |phone| && uri[..|DialScheme|] == DialScheme && uri[|DialScheme|..] == phone
    ensures SchemePayload(DialScheme, uri) == Some(phone)
    ensures SchemePayload(WhatsAppBase, uri).None? && SchemePayload(MailScheme, uri).None?
  {
    assert (DialScheme + phone)[0] == 't';
    DialScheme + phone
  }

  /** The WhatsApp URI opened for `number`: its cleaned form after the wa.me base. */
  function WhatsAppUri(number: string): (uri: string)
    ensures |uri| == |WhatsAppBase| + |CleanWhatsApp(number)|
    ensures uri[..|WhatsAppBase|] == WhatsAppBase && uri[|WhatsAppBase|..] == CleanWhatsApp(number)
    ensures forall i :: |WhatsAppBase| <= i < |uri| ==> KeptInWhatsApp(uri[i])
    ensures SchemePayload(WhatsAppBase, uri) == Some(CleanWhatsApp(number))
    ensures SchemePayload(DialScheme, uri).None? && SchemePayload(MailScheme, uri).None?
  {
    assert (WhatsAppBase + CleanWhatsApp(number))[0] == 'h';
    WhatsAppBase + CleanWhatsApp(number)
  }

  /** The email URI for `email`, and the address it carries. */
  function MailUri(email: string): (uri: string)
    ensures |uri| == |MailScheme| + |email| && uri[..|MailScheme|] == MailScheme && uri[|MailScheme|..] == email
    ensures SchemePayload(MailScheme, uri) == Some(email)
    ensures SchemePayload(DialScheme, uri).None? && SchemePayload(WhatsAppBase, uri).None?
  {
    assert (MailScheme + email)[0] == 'm';
    MailScheme + email
  }

  /** The three kinds of URI never coincide, and each determines what it carries. */
  lemma UrisAreDistinctAndInjective(a: string, b: string)
    ensures DialUri(a) != WhatsAppUri(b) && DialUri(a) != MailUri(b) && WhatsAppUri(a) != MailUri(b)
    ensures DialUri(a) == DialUri(b) ==> a == b
    ensures MailUri(a) == MailUri(b) ==> a == b
    ensures WhatsAppUri(a) == WhatsAppUri(b) <==> CleanWhatsApp(a) == CleanWhatsApp(b)
  {
    assert DialUri(a)[0] == 't' && WhatsAppUri(b)[0] == 'h' && MailUri(b)[0] == 'm';
    assert WhatsAppUri(a)[0] == 'h';
    if WhatsAppUri(a) == WhatsAppUri(b) {
      assert CleanWhatsApp(a) == WhatsAppUri(a)[|WhatsAppBase|..];
    }
  }

  // ---- The chips ----

  /** `list?.firstOrNull()`. */
  function FirstOrNull(xs: Option<seq<string>>): (first: Option<string>)
    ensures first.Some? <==> xs.Some? && |xs.value| > 0
    ensures first.Some? ==> first.value == xs.value[0]
  {
    if xs.Some? && |xs.value| > 0 then Some(xs.value[0]) else None
  }

  /** The chips of a contact card, each with the URI its click opens when it is shown. */
  datatype Chips = Chips(call: Option<string>, whatsApp: Option<string>, email: Option<string>)

  /**
   * The call chip uses the first phone, the email chip the first email and
   * the WhatsApp chip the WhatsApp field; each appears only when its value is
   * present and not blank.
   */
  function ChipsFor(c: Contact): (chips: Chips)
    ensures chips.call.Some? <==> c.phones.Some? && |c.phones.value| > 0 && !IsBlank(c.phones.value[0])
    ensures chips.call.Some? ==> chips.call.value == DialUri(c.phones.value[0])
    ensures chips.whatsApp.Some? <==> c.whatsapp.Some? && !IsBlank(c.whatsapp.value)
    ensures chips.whatsApp.Some? ==> chips.whatsApp.value == WhatsAppUri(c.whatsapp.value)
    ensures chips.email.Some? <==> c.emails.Some? && |c.emails.value| > 0 && !IsBlank(c.emails.value[0])
    ensures chips.email.Some? ==> chips.email.value == MailUri(c.emails.value[0])
    ensures chips.call.Some? ==> SchemePayload(DialScheme, chips.call.value) == FirstOrNull(c.phones)
    ensures chips.whatsApp.Some? ==> SchemePayload(WhatsAppBase, chips.whatsApp.value) == Some(CleanWhatsApp(c.whatsapp.value))
    ensures chips.email.Some? ==> SchemePayload(MailScheme, chips.email.value) == FirstOrNull(c.emails)
  {
    var phone := FirstOrNull(c.phones);
    var wa := c.whatsapp;
    var email := FirstOrNull(c.emails);
    Chips(if !IsNullOrBlank(phone) then Some(DialUri(phone.value)) else None,
          if !IsNullOrBlank(wa) then Some(WhatsAppUri(wa.value)) else None,
          if !IsNullOrBlank(email) then Some(MailUri(email.value)) else None)
  }

  /** The chips depend on the first phone, the first email and the WhatsApp field alone. */
  lemma ChipsUseFirstValuesOnly(c: Contact, d: Contact)
    requires FirstOrNull(c.phones) == FirstOrNull(d.phones) && FirstOrNull(c.emails) == FirstOrNull(d.emails)
    requires c.whatsapp == d.whatsapp
    ensures ChipsFor(c) == ChipsFor(d)
  {
  }

  /**
   * The WhatsApp chip is shown for any non-blank value, so a value with no
   * digit and no '+' opens the bare wa.me base.
   */
  lemma WhatsAppChipWithoutDigits(c: Contact)
    requires c.whatsapp == Some("n/a")
    ensures ChipsFor(c).whatsApp == Some(WhatsAppBase)
  {
    assert !IsWhitespace("n/a"[0]);
    assert CleanWhatsApp("a") == [] by {
      assert "a"[1..] == [];
    }
    assert CleanWhatsApp("/a") == [] by {
      assert "/a"[1..] == "a";
    }
    assert CleanWhatsApp("n/a") == [] by {
      assert "n/a"[1..] == "/a";
    }
    assert WhatsAppUri("n/a") == WhatsAppBase + [] == WhatsAppBase;
  }
}
