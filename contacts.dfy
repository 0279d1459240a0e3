/** The contact records of the dashboard and everything the page computes
    from them without changing state: the text helpers of
    app/dashboard/page.tsx (getInitials, getAvatarColor, hasValue), the
    memoised views (withPhone, withAddress, filtered, countLabel) and the
    list transformations its handlers apply to the contact list. */
module ContactBook {
  import opened Outcomes
  import opened Text
  import opened Sequences

  /** A row of the `contacts` table as the page holds it. */
  datatype Contact = Contact(id: string, userId: string, name: string, phone: string, address: string)

  /** The three editable fields of the new-contact form and the edit form. */
  datatype Draft = Draft(name: string, phone: string, address: string)

  /** The field names `handleFormChange` and `handleEditChange` accept. */
  datatype Field = Name | Phone | Address

  const EmptyDraft := Draft("", "", "")

  function FieldOf(d: Draft, f: Field): string {
    match f
    case Name => d.name
    case Phone => d.phone
    case Address => d.address
  }

  /** `{ ...prev, [field]: value }`: the named field takes the new value and
      the other two keep theirs. */
  function WithField(d: Draft, f: Field, v: string): (r: Draft)
    ensures FieldOf(r, f) == v
    ensures forall g :: g != f ==> FieldOf(r, g) == FieldOf(d, g)
  {
    match f
    case Name => d.(name := v)
    case Phone => d.(phone := v)
    case Address => d.(address := v)
  }

  // ---------------------------------------------------------------------
  // Text helpers

  /** hasValue: the string holds something other than whitespace. */
  predicate HasValue(s: string): (b: bool)
    ensures b <==> exists i :: 0 <= i < |s| && !IsWhitespace(s[i])
  {
    !IsBlank(s)
  }

  predicate IsWord(w: string) {
    w != ""
  }

  /** `.map(n => n[0]).join('')` over words that are all non-empty. */
  function Heads(ws: seq<string>): (r: string)
    requires forall i :: 0 <= i < |ws| ==> ws[i] != ""
    ensures |r| == |ws|
  {
    seq(|ws|, i requires 0 <= i < |ws| && ws[i] != "" => ws[i][0])
  }

  /** The letters that begin a word of s, a word being a maximal run of
      characters other than ' '; atWordStart says whether the character
      before s was a space (or s starts the name). */
  function WordInitials(s: string, atWordStart: bool): string {
    if s == [] then []
    else if s[0] == ' ' then WordInitials(s[1..], true)
    else (if atWordStart then [s[0]] else []) + WordInitials(s[1..], false)
  }

  function Take(s: string, n: nat): (r: string)
    ensures |r| <= n && |r| <= |s| && r == s[..|r|]
    ensures |s| <= n ==> r == s
  {
    if |s| <= n then s else s[..n]
  }

  /** `name.split(' ').filter(Boolean).map(n => n[0]).join('').toUpperCase()
      .slice(0, 2)`: the first two word initials of the name, upper-cased. */
  function Initials(name: string): (r: string)
    ensures |r| <= 2
    ensures r == Take(Upper(WordInitials(name, true)), 2)
  {
    var words := Filter(Split(name, ' '), IsWord);
    SplitWordInitials(name);
    Take(Upper(Heads(words)), 2)
  }

  /** Splitting at spaces, dropping the empty pieces and taking the first
      letter of each piece gives the word initials; the pieces after the
      first give the initials of every word but a leading one. */
  lemma {:induction false} SplitWordInitials(s: string)
    ensures Heads(Filter(Split(s, ' '), IsWord)) == WordInitials(s, true)
    ensures Heads(Filter(Split(s, ' ')[1..], IsWord)) == WordInitials(s, false)
  {
    if s == [] {
      assert Split(s, ' ') == [""];
    } else if s[0] == ' ' {
      SplitWordInitials(s[1..]);
      var rest := Split(s[1..], ' ');
      assert Split(s, ' ') == [""] + rest;
      FilterCons("", rest, IsWord);
      assert ([""] + rest)[1..] == rest;
    } else {
      SplitWordInitials(s[1..]);
      var rest := Split(s[1..], ' ');
      var w := [s[0]] + rest[0];
      assert Split(s, ' ') == [w] + rest[1..];
      assert ([w] + rest[1..])[1..] == rest[1..];
      FilterCons(w, rest[1..], IsWord);
      HeadsCons(w, Filter(rest[1..], IsWord));
    }
  }

  lemma HeadsCons(w: string, ws: seq<string>)
    requires w != "" && forall i :: 0 <= i < |ws| ==> ws[i] != ""
    ensures Heads([w] + ws) == [w[0]] + Heads(ws)
  {
  }

  /** The avatar palette. */
  const AvatarColors: seq<string> := [
    "#C8B8E8", "#B8D4C8", "#E8C8B8", "#B8C8E8",
    "#E8D4B8", "#C8E8D4", "#E8B8C8", "#D4C8E8"
  ]

  /** getAvatarColor: the palette entry chosen by the first UTF-16 code unit
      of the name modulo the palette size; for the empty name charCodeAt(0)
      is NaN and the lookup yields `undefined`. */
  function AvatarColor(name: string): (r: Option<string>)
    ensures r.Some? <==> name != ""
    ensures r.Some? ==> exists i :: 0 <= i < |AvatarColors| && r.value == AvatarColors[i]
    ensures r.Some? ==> r.value == AvatarColors[CodeUnit(name[0]) % |AvatarColors|]
  {
    if name == [] then None else Some(AvatarColors[CodeUnit(name[0]) % |AvatarColors|])
  }

  /** The colour depends on the first character only. */
  lemma AvatarColorByFirstChar(a: string, b: string)
    requires a != "" && b != "" && a[0] == b[0]
    ensures AvatarColor(a) == AvatarColor(b)
  {
  }

  // ---------------------------------------------------------------------
  // Derived views

  predicate HasPhone(c: Contact) {
    HasValue(c.phone)
  }

  predicate HasAddress(c: Contact) {
    HasValue(c.address)
  }

  /** `withPhone`: the contacts whose phone is not blank, in list order. */
  function WithPhone(cs: seq<Contact>): (r: seq<Contact>)
    ensures |r| == Count(cs, HasPhone) && |r| <= |cs|
    ensures forall i :: 0 <= i < |r| ==> r[i] in cs && HasValue(r[i].phone)
    ensures forall i :: 0 <= i < |cs| && HasValue(cs[i].phone) ==> cs[i] in r
    ensures IsSubsequence(r, cs)
  {
    FilterLength(cs, HasPhone);
    FilterIsSubsequence(cs, HasPhone);
    Filter(cs, HasPhone)
  }

  /** `withAddress`: the contacts whose address is not blank, in list order. */
  function WithAddress(cs: seq<Contact>): (r: seq<Contact>)
    ensures |r| == Count(cs, HasAddress) && |r| <= |cs|
    ensures forall i :: 0 <= i < |r| ==> r[i] in cs && HasValue(r[i].address)
    ensures forall i :: 0 <= i < |cs| && HasValue(cs[i].address) ==> cs[i] in r
    ensures IsSubsequence(r, cs)
  {
    FilterLength(cs, HasAddress);
    FilterIsSubsequence(cs, HasAddress);
    Filter(cs, HasAddress)
  }

  /** The search predicate for a query that is not blank: the lowered name
      contains the lowered query, or the phone is non-empty and contains the
      query as typed, or the address is non-empty and, lowered, contains the
      lowered query. */
  predicate Matches(c: Contact, search: string): (b: bool)
    ensures search == [] ==> b
    ensures Contains(c.name, search) ==> b
    ensures Contains(c.phone, search) ==> b
    ensures Contains(c.address, search) ==> b
  {
    LowerContains(c.name, search);
    LowerContains(c.address, search);
    var q := Lower(search);
    Contains(Lower(c.name), q)
    || (c.phone != "" && Contains(c.phone, search))
    || (c.address != "" && Contains(Lower(c.address), q))
  }

  function MatchesQuery(search: string): Contact -> bool {
    (c: Contact) => Matches(c, search)
  }

  /** `filtered`: the whole list when the query is blank after trimming;
      otherwise the contacts that match the untrimmed query, in list order. */
  function Filtered(cs: seq<Contact>, search: string): (r: seq<Contact>)
    ensures IsBlank(search) ==> r == cs
    ensures !IsBlank(search) ==> forall i :: 0 <= i < |r| ==> r[i] in cs && Matches(r[i], search)
    ensures !IsBlank(search) ==> forall i :: 0 <= i < |cs| && Matches(cs[i], search) ==> cs[i] in r
    ensures !IsBlank(search) ==> |r| == Count(cs, MatchesQuery(search))
    ensures IsSubsequence(r, cs)
  {
    if IsBlank(search) then
      SubsequenceReflexive(cs);
      cs
    else
      FilterIsSubsequence(cs, MatchesQuery(search));
      FilterLength(cs, MatchesQuery(search));
      Filter(cs, MatchesQuery(search))
  }

  /** `countLabel`. */
  function CountLabel(n: nat): (r: string)
    ensures n == 0 ==> r == "No contacts yet"
    ensures n == 1 ==> r == "1 person saved"
    ensures n >= 2 ==> r == Decimal(n) + " people saved"
  {
    if n == 0 then "No contacts yet"
    else Decimal(n) + " " + (if n == 1 then "person" else "people") + " saved"
  }

  /** Different contact counts never share a label. */
  lemma CountLabelInjective(m: nat, n: nat)
    requires m != n
    ensures CountLabel(m) != CountLabel(n)
  {
    var lm, ln := CountLabel(m), CountLabel(n);
    if m >= 2 && n >= 2 {
      var dm, dn := Decimal(m), Decimal(n);
      if |dm| != |dn| {
        assert |lm| != |ln|;
      } else {
        DecimalInjective(m, n);
        assert lm[..|dm|] == dm && ln[..|dn|] == dn;
      }
    } else if m == 0 || n == 0 {
      if m != 0 {
        assert lm[0] == Decimal(m)[0] && ln[0] == 'N';
      } else {
        assert ln[0] == Decimal(n)[0] && lm[0] == 'N';
      }
    } else if m == 1 {
      assert ln[|ln| - 7] == 'e' && lm[|lm| - 7] == 'n';
    } else {
      assert lm[|lm| - 7] == 'e' && ln[|ln| - 7] == 'n';
    }
  }

  // ---------------------------------------------------------------------
  // List transformations of the handlers

  function IdOf(c: Contact): string {
    c.id
  }

  /** Within one user's list every id occurs once. */
  predicate UniqueIds(cs: seq<Contact>) {
    forall i, j :: 0 <= i < j < |cs| ==> IdOf(cs[i]) != IdOf(cs[j])
  }

  /** `{ ...c, ...editForm }`. */
  function Merge(c: Contact, d: Draft): Contact {
    c.(name := d.name, phone := d.phone, address := d.address)
  }

  /** `prev.map(c => c.id === id ? { ...c, ...d } : c)`: every contact with
      that id takes the three form values and keeps its id and owner; every
      other contact, and the order and length of the list, stay as they were. */
  function ReplaceById(cs: seq<Contact>, id: string, d: Draft): (r: seq<Contact>)
    ensures |r| == |cs|
    ensures forall i :: 0 <= i < |cs| ==> r[i].id == cs[i].id && r[i].userId == cs[i].userId
    ensures forall i :: 0 <= i < |cs| && cs[i].id == id ==>
      r[i].name == d.name && r[i].phone == d.phone && r[i].address == d.address
    ensures forall i :: 0 <= i < |cs| && cs[i].id != id ==> r[i] == cs[i]
  {
    seq(|cs|, i requires 0 <= i < |cs| => if cs[i].id == id then Merge(cs[i], d) else cs[i])
  }

  /** Replacing keeps the ids unique. */
  lemma ReplaceKeepsUnique(cs: seq<Contact>, id: string, d: Draft)
    requires UniqueIds(cs)
    ensures UniqueIds(ReplaceById(cs, id, d))
  {
  }

  function IdIsNot(id: string): Contact -> bool {
    (c: Contact) => c.id != id
  }

  /** `prev.filter(c => c.id !== id)`: the contacts with another id, in list
      order; no contact with that id is left. */
  function RemoveById(cs: seq<Contact>, id: string): (r: seq<Contact>)
    ensures |r| == Count(cs, IdIsNot(id)) && |r| <= |cs|
    ensures forall i :: 0 <= i < |r| ==> r[i] in cs && r[i].id != id
    ensures forall i :: 0 <= i < |cs| && cs[i].id != id ==> cs[i] in r
    ensures IsSubsequence(r, cs)
  {
    FilterIsSubsequence(cs, IdIsNot(id));
    FilterLength(cs, IdIsNot(id));
    Filter(cs, IdIsNot(id))
  }

  /** Removing an id that is present in a list of unique ids shortens the
      list by exactly one. */
  lemma {:induction false} RemovePresentUnique(cs: seq<Contact>, id: string, k: nat)
    requires UniqueIds(cs) && k < |cs| && cs[k].id == id
    ensures |RemoveById(cs, id)| == |cs| - 1
  {
    var rest := cs[1..];
    if k == 0 {
      forall i | 0 <= i < |rest| ensures IdIsNot(id)(rest[i]) {
        assert IdOf(cs[0]) != IdOf(cs[i + 1]);
      }
      FilterKeepsAll(rest, IdIsNot(id));
    } else {
      assert UniqueIds(rest) by {
        forall i, j | 0 <= i < j < |rest| ensures IdOf(rest[i]) != IdOf(rest[j]) {
          assert IdOf(cs[i + 1]) != IdOf(cs[j + 1]);
        }
      }
      assert IdOf(cs[0]) != IdOf(cs[k]);
      RemovePresentUnique(rest, id, k - 1);
    }
  }

  /** Removing keeps the ids unique. */
  lemma RemoveKeepsUnique(cs: seq<Contact>, id: string)
    requires UniqueIds(cs)
    ensures UniqueIds(RemoveById(cs, id))
  {
    FilterKeepsDistinct(cs, IdIsNot(id), IdOf);
  }

  /** Appending a record whose id is new keeps the ids unique. */
  lemma AppendKeepsUnique(cs: seq<Contact>, c: Contact)
    requires UniqueIds(cs)
    requires forall i :: 0 <= i < |cs| ==> cs[i].id != c.id
    ensures UniqueIds(cs + [c])
  {
  }
}
