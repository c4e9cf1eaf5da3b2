/**
 * The member profile form: a stored person row is turned into string-valued form state,
 * the user edits it one field at a time, and saving validates the name, turns the form
 * back into an update payload (trimmed text, blank text as null, years parsed) and writes
 * it to the row with the person's handle.
 */
module GenealogyForm {
  import opened Optional
  import opened JsString

  // ---------------------------------------------------------------- records

  /** A row of the people table. `None` is a column holding null (or left out of the row). */
  datatype Person = Person(
    handle: string,
    displayName: Option<string>,
    gender: Option<int>,
    generation: int,
    birthYear: Option<int>,
    birthDate: Option<string>,
    birthPlace: Option<string>,
    deathYear: Option<int>,
    deathDate: Option<string>,
    deathPlace: Option<string>,
    isLiving: Option<bool>,
    isPrivacyFiltered: Option<bool>,
    isPatrilineal: bool,
    nickName: Option<string>,
    phone: Option<string>,
    email: Option<string>,
    zalo: Option<string>,
    facebook: Option<string>,
    currentAddress: Option<string>,
    hometown: Option<string>,
    occupation: Option<string>,
    company: Option<string>,
    education: Option<string>,
    notes: Option<string>,
    grampsId: Option<string>,
    createdAt: Option<string>,
    updatedAt: Option<string>)

  /** The form state: one input per editable column, the years as the text of their inputs. */
  datatype FormState = FormState(
    displayName: string,
    nickName: string,
    gender: int,
    isLiving: bool,
    isPrivacyFiltered: bool,
    birthYear: string,
    birthDate: string,
    birthPlace: string,
    deathYear: string,
    deathDate: string,
    deathPlace: string,
    phone: string,
    email: string,
    zalo: string,
    facebook: string,
    currentAddress: string,
    hometown: string,
    occupation: string,
    company: string,
    education: string,
    notes: string)

  /** The columns a save writes; `None` is sent as null. */
  datatype Payload = Payload(
    displayName: string,
    nickName: Option<string>,
    gender: int,
    isLiving: bool,
    isPrivacyFiltered: bool,
    birthYear: Option<int>,
    birthDate: Option<string>,
    birthPlace: Option<string>,
    deathYear: Option<int>,
    deathDate: Option<string>,
    deathPlace: Option<string>,
    phone: Option<string>,
    email: Option<string>,
    zalo: Option<string>,
    facebook: Option<string>,
    currentAddress: Option<string>,
    hometown: Option<string>,
    occupation: Option<string>,
    company: Option<string>,
    education: Option<string>,
    notes: Option<string>,
    updatedAt: string)

  /** The optional free-text columns, which the form treats alike. */
  datatype TextField =
    | NickName | BirthDate | BirthPlace | DeathDate | DeathPlace | Phone | Email | Zalo
    | Facebook | CurrentAddress | Hometown | Occupation | Company | Education | Notes

  function StoredText(p: Person, f: TextField): Option<string> {
    match f
    case NickName => p.nickName
    case BirthDate => p.birthDate
    case BirthPlace => p.birthPlace
    case DeathDate => p.deathDate
    case DeathPlace => p.deathPlace
    case Phone => p.phone
    case Email => p.email
    case Zalo => p.zalo
    case Facebook => p.facebook
    case CurrentAddress => p.currentAddress
    case Hometown => p.hometown
    case Occupation => p.occupation
    case Company => p.company
    case Education => p.education
    case Notes => p.notes
  }

  function FormText(s: FormState, f: TextField): string {
    match f
    case NickName => s.nickName
    case BirthDate => s.birthDate
    case BirthPlace => s.birthPlace
    case DeathDate => s.deathDate
    case DeathPlace => s.deathPlace
    case Phone => s.phone
    case Email => s.email
    case Zalo => s.zalo
    case Facebook => s.facebook
    case CurrentAddress => s.currentAddress
    case Hometown => s.hometown
    case Occupation => s.occupation
    case Company => s.company
    case Education => s.education
    case Notes => s.notes
  }

  function PayloadText(pl: Payload, f: TextField): Option<string> {
    match f
    case NickName => pl.nickName
    case BirthDate => pl.birthDate
    case BirthPlace => pl.birthPlace
    case DeathDate => pl.deathDate
    case DeathPlace => pl.deathPlace
    case Phone => pl.phone
    case Email => pl.email
    case Zalo => pl.zalo
    case Facebook => pl.facebook
    case CurrentAddress => pl.currentAddress
    case Hometown => pl.hometown
    case Occupation => pl.occupation
    case Company => pl.company
    case Education => pl.education
    case Notes => pl.notes
  }

  // ---------------------------------------------------------------- row to form

  /** A stored year as the text of its input: the decimal digits, or "" when null. */
  function YearText(year: Option<int>): (r: string)
    ensures r == "" <==> year.None?
    ensures year.Some? ==> (year.value >= 0 <==> AllDigits(r))
  {
    match year
    case Some(n) => DecimalString(n)
    case None => ""
  }

  /** A year input as it is saved: null when empty, otherwise what `parseInt` reads (null for NaN). */
  function ParseYear(s: string): (r: Option<int>)
    ensures AllSpace(s) ==> r == None
    ensures !AllSpace(s) ==> r == ParseInt(s)
  {
    if s == "" then None else ParseInt(s)
  }

  /** A year written into its input reads back as the same year; null reads back as null. */
  lemma YearRoundTrip(year: Option<int>)
    ensures ParseYear(YearText(year)) == year
  {
    if year.Some? {
      ParseDecimal(year.value);
    }
  }

  /**
   * Loads a row into the form: null text becomes "", a null name "", a null gender 1 (male),
   * a null living flag true, a null privacy flag false, and each year its decimal text.
   */
  function PersonToForm(p: Person): (s: FormState)
    ensures s.displayName == p.displayName.GetOr("")
    ensures s.gender == p.gender.GetOr(1)
    ensures s.isLiving == p.isLiving.GetOr(true) && s.isPrivacyFiltered == p.isPrivacyFiltered.GetOr(false)
    ensures s.birthYear == YearText(p.birthYear) && s.deathYear == YearText(p.deathYear)
    ensures ParseYear(s.birthYear) == p.birthYear && ParseYear(s.deathYear) == p.deathYear
  {
    YearRoundTrip(p.birthYear);
    YearRoundTrip(p.deathYear);
    FormState(
      displayName := p.displayName.GetOr(""),
      nickName := p.nickName.GetOr(""),
      gender := p.gender.GetOr(1),
      isLiving := p.isLiving.GetOr(true),
      isPrivacyFiltered := p.isPrivacyFiltered.GetOr(false),
      birthYear := YearText(p.birthYear),
      birthDate := p.birthDate.GetOr(""),
      birthPlace := p.birthPlace.GetOr(""),
      deathYear := YearText(p.deathYear),
      deathDate := p.deathDate.GetOr(""),
      deathPlace := p.deathPlace.GetOr(""),
      phone := p.phone.GetOr(""),
      email := p.email.GetOr(""),
      zalo := p.zalo.GetOr(""),
      facebook := p.facebook.GetOr(""),
      currentAddress := p.currentAddress.GetOr(""),
      hometown := p.hometown.GetOr(""),
      occupation := p.occupation.GetOr(""),
      company := p.company.GetOr(""),
      education := p.education.GetOr(""),
      notes := p.notes.GetOr(""))
  }

  /** Every text input of a loaded form holds its column's text, or "" for null. */
  lemma LoadedText(p: Person)
    ensures forall f :: FormText(PersonToForm(p), f) == StoredText(p, f).GetOr("")
  {
    var s := PersonToForm(p);
    forall f ensures FormText(s, f) == StoredText(p, f).GetOr("") {
      match f
      case NickName => 
      case BirthDate => 
      case BirthPlace => 
      case DeathDate => 
      case DeathPlace => 
      case Phone => 
      case Email => 
      case Zalo => 
      case Facebook => 
      case CurrentAddress => 
      case Hometown => 
      case Occupation => 
      case Company => 
      case Education => 
      case Notes => 
    }
  }

  // ---------------------------------------------------------------- form to payload

  const BlankNameMessage := "Họ và tên không được để trống."

  /** `s.trim() || null`: the trimmed text, or null when nothing but whitespace is left. */
  function NullIfBlank(s: string): (r: Option<string>)
    ensures r.None? <==> AllSpace(s)
    ensures r.Some? ==> r.value == Trim(s) && r.value != "" && Trimmed(r.value)
  {
    var t := Trim(s);
    if t == "" then None else Some(t)
  }

  /**
   * The save gate and payload: a name that is empty after trimming is refused with a message;
   * otherwise every text field is trimmed (blank becomes null), the years are parsed, and the
   * choices and the time of the save are copied.
   */
  function BuildPayload(s: FormState, now: string): (r: Result<Payload>)
    ensures r.Err? <==> AllSpace(s.displayName)
    ensures r.Err? ==> r.message == BlankNameMessage
    ensures r.Ok? ==>
      && r.value.displayName == Trim(s.displayName) && r.value.displayName != "" && Trimmed(r.value.displayName)
      && r.value.birthYear == ParseYear(s.birthYear) && r.value.deathYear == ParseYear(s.deathYear)
      && r.value.gender == s.gender && r.value.isLiving == s.isLiving
      && r.value.isPrivacyFiltered == s.isPrivacyFiltered && r.value.updatedAt == now
  {
    if Trim(s.displayName) == "" then Err(BlankNameMessage)
    else
      Ok(Payload(
        displayName := Trim(s.displayName),
        nickName := NullIfBlank(s.nickName),
        gender := s.gender,
        isLiving := s.isLiving,
        isPrivacyFiltered := s.isPrivacyFiltered,
        birthYear := ParseYear(s.birthYear),
        birthDate := NullIfBlank(s.birthDate),
        birthPlace := NullIfBlank(s.birthPlace),
        deathYear := ParseYear(s.deathYear),
        deathDate := NullIfBlank(s.deathDate),
        deathPlace := NullIfBlank(s.deathPlace),
        phone := NullIfBlank(s.phone),
        email := NullIfBlank(s.email),
        zalo := NullIfBlank(s.zalo),
        facebook := NullIfBlank(s.facebook),
        currentAddress := NullIfBlank(s.currentAddress),
        hometown := NullIfBlank(s.hometown),
        occupation := NullIfBlank(s.occupation),
        company := NullIfBlank(s.company),
        education := NullIfBlank(s.education),
        notes := NullIfBlank(s.notes),
        updatedAt := now))
  }

  /** Every text column of a payload is its input trimmed, or null when the input is blank. */
  lemma SavedText(s: FormState, now: string)
    requires BuildPayload(s, now).Ok?
    ensures forall f :: PayloadText(BuildPayload(s, now).value, f) == NullIfBlank(FormText(s, f))
  {
    var pl := BuildPayload(s, now).value;
    forall f ensures PayloadText(pl, f) == NullIfBlank(FormText(s, f)) {
      match f
      case NickName => 
      case BirthDate => 
      case BirthPlace => 
      case DeathDate => 
      case DeathPlace => 
      case Phone => 
      case Email => 
      case Zalo => 
      case Facebook => 
      case CurrentAddress => 
      case Hometown => 
      case Occupation => 
      case Company => 
      case Education => 
      case Notes => 
    }
  }

  /**
   * The row after the update: the payload's columns are overwritten; the handle, generation,
   * lineage flag, import id and creation time are not in the payload and keep their values.
   */
  function ApplyUpdate(p: Person, pl: Payload): (r: Person)
    ensures r.handle == p.handle && r.generation == p.generation && r.isPatrilineal == p.isPatrilineal
    ensures r.grampsId == p.grampsId && r.createdAt == p.createdAt
    ensures r.displayName == Some(pl.displayName) && r.gender == Some(pl.gender)
    ensures r.isLiving == Some(pl.isLiving) && r.isPrivacyFiltered == Some(pl.isPrivacyFiltered)
    ensures r.birthYear == pl.birthYear && r.deathYear == pl.deathYear
    ensures forall f :: StoredText(r, f) == PayloadText(pl, f)
    ensures r.updatedAt == Some(pl.updatedAt)
  {
    p.(
      displayName := Some(pl.displayName),
      nickName := pl.nickName,
      gender := Some(pl.gender),
      isLiving := Some(pl.isLiving),
      isPrivacyFiltered := Some(pl.isPrivacyFiltered),
      birthYear := pl.birthYear,
      birthDate := pl.birthDate,
      birthPlace := pl.birthPlace,
      deathYear := pl.deathYear,
      deathDate := pl.deathDate,
      deathPlace := pl.deathPlace,
      phone := pl.phone,
      email := pl.email,
      zalo := pl.zalo,
      facebook := pl.facebook,
      currentAddress := pl.currentAddress,
      hometown := pl.hometown,
      occupation := pl.occupation,
      company := pl.company,
      education := pl.education,
      notes := pl.notes,
      updatedAt := Some(pl.updatedAt))
  }

  /** `update(payload).eq("handle", handle)`: only the row with that handle changes, and none when there is none. */
  function UpdateRows(rows: map<string, Person>, handle: string, pl: Payload): (r: map<string, Person>)
    ensures r.Keys == rows.Keys
    ensures forall h :: h in rows && h != handle ==> r[h] == rows[h]
    ensures handle in rows ==> r[handle] == ApplyUpdate(rows[handle], pl)
  {
    if handle in rows then rows[handle := ApplyUpdate(rows[handle], pl)] else rows
  }

  // ---------------------------------------------------------------- properties of a save

  /** A save fails exactly on a name made of whitespace, and a successful save never stores an empty name. */
  lemma SavedNameNeverBlank(s: FormState, now: string, p: Person)
    ensures BuildPayload(s, now).Err? <==> Trim(s.displayName) == ""
    ensures BuildPayload(s, now).Ok? ==>
      var r := ApplyUpdate(p, BuildPayload(s, now).value);
      r.displayName.Some? && r.displayName.value != "" && r.displayName.value == Trim(s.displayName)
  {
  }

  /** Already-trimmed text survives loading into the form and saving back; "" and null both come back null. */
  lemma {:induction false} TextRoundTrip(o: Option<string>)
    requires o.Some? ==> Trimmed(o.value)
    ensures NullIfBlank(o.GetOr("")) == if o == Some("") then None else o
  {
    if o.Some? && o.value != "" {
      assert !IsSpace(o.value[0]);
    }
  }

  /**
   * Loading a row into the form and saving it unchanged: the name is accepted when it is not
   * blank; each year comes back as the stored integer; each text column comes back as its
   * trimmed value, or null when it was null or blank.
   */
  lemma {:induction false} LoadThenSave(p: Person, now: string)
    requires !AllSpace(p.displayName.GetOr(""))
    ensures BuildPayload(PersonToForm(p), now).Ok?
    ensures var pl := BuildPayload(PersonToForm(p), now).value;
      && pl.birthYear == p.birthYear && pl.deathYear == p.deathYear
      && pl.displayName == Trim(p.displayName.value)
      && pl.gender == p.gender.GetOr(1) && pl.isLiving == p.isLiving.GetOr(true)
      && pl.isPrivacyFiltered == p.isPrivacyFiltered.GetOr(false) && pl.updatedAt == now
      && (forall f :: PayloadText(pl, f) == NullIfBlank(StoredText(p, f).GetOr("")))
  {
    var s := PersonToForm(p);
    LoadedText(p);
    assert s.displayName == p.displayName.value;
    SavedText(s, now);
  }

  /** A row as the form writes it: a non-blank trimmed name, set flags and gender, and trimmed non-empty text. */
  predicate Normalized(p: Person) {
    && p.displayName.Some? && p.displayName.value != "" && Trimmed(p.displayName.value)
    && p.gender.Some? && p.isLiving.Some? && p.isPrivacyFiltered.Some?
    && forall f :: StoredText(p, f).Some? ==> StoredText(p, f).value != "" && Trimmed(StoredText(p, f).value)
  }

  /** Saving an unchanged form leaves a normalized row as it was, apart from its update time. */
  lemma {:induction false} SaveUnchangedFormIsIdentity(p: Person, now: string)
    requires Normalized(p)
    ensures BuildPayload(PersonToForm(p), now).Ok?
    ensures ApplyUpdate(p, BuildPayload(PersonToForm(p), now).value) == p.(updatedAt := Some(now))
  {
    LoadThenSave(p, now);
    WriteBackIsIdentity(p, BuildPayload(PersonToForm(p), now).value, now);
  }

  /** Applying a payload that carries a normalized row's own values changes only its update time. */
  lemma WriteBackIsIdentity(p: Person, pl: Payload, now: string)
    requires Normalized(p)
    requires pl.birthYear == p.birthYear && pl.deathYear == p.deathYear
    requires pl.displayName == Trim(p.displayName.value)
    requires pl.gender == p.gender.GetOr(1) && pl.isLiving == p.isLiving.GetOr(true)
    requires pl.isPrivacyFiltered == p.isPrivacyFiltered.GetOr(false) && pl.updatedAt == now
    requires forall f :: PayloadText(pl, f) == NullIfBlank(StoredText(p, f).GetOr(""))
    ensures ApplyUpdate(p, pl) == p.(updatedAt := Some(now))
  {
    KeptTextColumns(p, pl, now);
    SameRow(ApplyUpdate(p, pl), p.(updatedAt := Some(now)));
  }

  /** Writing back the text of a normalized row leaves each text column as it was. */
  lemma KeptTextColumns(p: Person, pl: Payload, now: string)
    requires Normalized(p)
    requires forall f :: PayloadText(pl, f) == NullIfBlank(StoredText(p, f).GetOr(""))
    ensures forall f :: StoredText(ApplyUpdate(p, pl), f) == StoredText(p.(updatedAt := Some(now)), f)
  {
    forall f ensures StoredText(ApplyUpdate(p, pl), f) == StoredText(p.(updatedAt := Some(now)), f) {
      TextRoundTrip(StoredText(p, f));
      UpdateTimeIsNotText(p, now, f);
    }
  }

  lemma UpdateTimeIsNotText(p: Person, now: string, f: TextField)
    ensures StoredText(p.(updatedAt := Some(now)), f) == StoredText(p, f)
  {
    match f
    case NickName => 
    case BirthDate => 
    case BirthPlace => 
    case DeathDate => 
    case DeathPlace => 
    case Phone => 
    case Email => 
    case Zalo => 
    case Facebook => 
    case CurrentAddress => 
    case Hometown => 
    case Occupation => 
    case Company => 
    case Education => 
    case Notes => 
  }

  /** Two rows that agree on every column are the same row. */
  lemma SameRow(a: Person, b: Person)
    requires a.handle == b.handle && a.generation == b.generation && a.isPatrilineal == b.isPatrilineal
    requires a.grampsId == b.grampsId && a.createdAt == b.createdAt && a.updatedAt == b.updatedAt
    requires a.displayName == b.displayName && a.gender == b.gender
    requires a.isLiving == b.isLiving && a.isPrivacyFiltered == b.isPrivacyFiltered
    requires a.birthYear == b.birthYear && a.deathYear == b.deathYear
    requires forall f :: StoredText(a, f) == StoredText(b, f)
    ensures a == b
  {
    assert StoredText(a, NickName) == StoredText(b, NickName);
    assert StoredText(a, BirthDate) == StoredText(b, BirthDate);
    assert StoredText(a, BirthPlace) == StoredText(b, BirthPlace);
    assert StoredText(a, DeathDate) == StoredText(b, DeathDate);
    assert StoredText(a, DeathPlace) == StoredText(b, DeathPlace);
    assert StoredText(a, Phone) == StoredText(b, Phone);
    assert StoredText(a, Email) == StoredText(b, Email);
    assert StoredText(a, Zalo) == StoredText(b, Zalo);
    assert StoredText(a, Facebook) == StoredText(b, Facebook);
    assert StoredText(a, CurrentAddress) == StoredText(b, CurrentAddress);
    assert StoredText(a, Hometown) == StoredText(b, Hometown);
    assert StoredText(a, Occupation) == StoredText(b, Occupation);
    assert StoredText(a, Company) == StoredText(b, Company);
    assert StoredText(a, Education) == StoredText(b, Education);
    assert StoredText(a, Notes) == StoredText(b, Notes);
  }

  // ---------------------------------------------------------------- editing one field

  /** The keys of the form state. */
  datatype FormKey =
    | DisplayName | Gender | IsLiving | IsPrivacyFiltered | BirthYear | DeathYear | Text(field: TextField)

  /** A value one input can hold. */
  datatype FieldValue = TextValue(text: string) | NumberValue(number: int) | FlagValue(flag: bool)

  /** The value has the type of the key's input. */
  predicate Fits(key: FormKey, v: FieldValue) {
    match key
    case Gender => v.NumberValue?
    case IsLiving => v.FlagValue?
    case IsPrivacyFiltered => v.FlagValue?
    case _ => v.TextValue?
  }

  function Get(s: FormState, key: FormKey): (v: FieldValue)
    ensures Fits(key, v)
  {
    match key
    case DisplayName => TextValue(s.displayName)
    case Gender => NumberValue(s.gender)
    case IsLiving => FlagValue(s.isLiving)
    case IsPrivacyFiltered => FlagValue(s.isPrivacyFiltered)
    case BirthYear => TextValue(s.birthYear)
    case DeathYear => TextValue(s.deathYear)
    case Text(f) => TextValue(FormText(s, f))
  }

  function WithText(s: FormState, f: TextField, t: string): (r: FormState)
    ensures FormText(r, f) == t
    ensures forall g :: g != f ==> FormText(r, g) == FormText(s, g)
    ensures r.displayName == s.displayName && r.gender == s.gender && r.isLiving == s.isLiving
    ensures r.isPrivacyFiltered == s.isPrivacyFiltered && r.birthYear == s.birthYear && r.deathYear == s.deathYear
  {
    match f
    case NickName => s.(nickName := t)
    case BirthDate => s.(birthDate := t)
    case BirthPlace => s.(birthPlace := t)
    case DeathDate => s.(deathDate := t)
    case DeathPlace => s.(deathPlace := t)
    case Phone => s.(phone := t)
    case Email => s.(email := t)
    case Zalo => s.(zalo := t)
    case Facebook => s.(facebook := t)
    case CurrentAddress => s.(currentAddress := t)
    case Hometown => s.(hometown := t)
    case Occupation => s.(occupation := t)
    case Company => s.(company := t)
    case Education => s.(education := t)
    case Notes => s.(notes := t)
  }

  /** `{ ...form, [key]: value }`: key `key` reads `v` afterwards and every other key is unchanged. */
  function WithField(s: FormState, key: FormKey, v: FieldValue): (r: FormState)
    requires Fits(key, v)
    ensures Get(r, key) == v
    ensures forall k :: k != key ==> Get(r, k) == Get(s, k)
  {
    match key
    case DisplayName => s.(displayName := v.text)
    case Gender => s.(gender := v.number)
    case IsLiving => s.(isLiving := v.flag)
    case IsPrivacyFiltered => s.(isPrivacyFiltered := v.flag)
    case BirthYear => s.(birthYear := v.text)
    case DeathYear => s.(deathYear := v.text)
    case Text(f) => WithText(s, f, v.text)
  }

  // ---------------------------------------------------------------- the component

  /** The people table, keyed by handle. */
  class PeopleTable {
    var rows: map<string, Person>

    /** Each row is stored under its own handle. */
    ghost predicate Valid()
      reads this
    {
      forall h :: h in rows ==> rows[h].handle == h
    }

    constructor (rows: map<string, Person>)
      requires forall h :: h in rows ==> rows[h].handle == h
      ensures Valid() && this.rows == rows
    {
      this.rows := rows;
    }
  }

  /** An update keeps every row stored under its own handle. */
  lemma UpdateKeepsHandles(rows: map<string, Person>, handle: string, pl: Payload)
    requires forall h :: h in rows ==> rows[h].handle == h
    ensures var r := UpdateRows(rows, handle, pl); forall h :: h in r ==> r[h].handle == h
  {
  }

  datatype NoticeKind = SuccessNotice | ErrorNotice

  /** The toast the form shows at the bottom of the page. */
  datatype Notice = Notice(kind: NoticeKind, message: string)

  /** How the store answered the update: it was applied, or it failed with an error (a message if it is an `Error`). */
  datatype StoreReply = Applied | Rejected(error: Option<string>)

  const NotFoundMessage := "Không tìm thấy thành viên."
  const SavedMessage := "Đã lưu thông tin thành công!"
  const ErrorPrefix := "Lỗi: "
  const UnknownError := "Không xác định"

  /** The toast for a failed update: "Lỗi: " and the error's message, or "Không xác định" for a thrown non-error. */
  function FailureMessage(error: Option<string>): (message: string)
    ensures |message| >= |ErrorPrefix| && message[..|ErrorPrefix|] == ErrorPrefix
    ensures error.Some? ==> message[|ErrorPrefix|..] == error.value
    ensures error.None? ==> message[|ErrorPrefix|..] == UnknownError
  {
    ErrorPrefix + error.GetOr(UnknownError)
  }

  /** The profile form component for the member `personHandle`. */
  class FormComponent {
    const personHandle: string
    var person: Option<Person>
    var form: Option<FormState>
    var toast: Option<Notice>

    constructor (personHandle: string)
      ensures this.personHandle == personHandle
      ensures person == None && form == None && toast == None
    {
      this.personHandle := personHandle;
      person := None;
      form := None;
      toast := None;
    }

    /** Loads the row with handle `personHandle` into `person` and the form, or shows "not found". */
    method FetchPerson(table: PeopleTable)
      modifies this
      ensures personHandle == "" ==> person == old(person) && form == old(form) && toast == old(toast)
      ensures personHandle != "" && personHandle in table.rows ==>
        && person == Some(table.rows[personHandle]) && form == Some(PersonToForm(table.rows[personHandle]))
        && toast == old(toast)
      ensures table.Valid() && personHandle != "" && personHandle in table.rows ==> person.value.handle == personHandle
      ensures personHandle != "" && personHandle !in table.rows ==>
        && person == old(person) && form == old(form) && toast == Some(Notice(ErrorNotice, NotFoundMessage))
    {
      if personHandle == "" {
        return;
      }
      if personHandle !in table.rows {
        toast := Some(Notice(ErrorNotice, NotFoundMessage));
        return;
      }
      var p := table.rows[personHandle];
      person := Some(p);
      form := Some(PersonToForm(p));
    }

    /**
     * Saving: nothing happens before a row is loaded; a blank name is refused with a toast and
     * no write; otherwise the payload is written to the row with the loaded person's handle
     * and, when the store applies it, the success toast is shown and the row is fetched again.
     */
    method HandleSave(table: PeopleTable, now: string, reply: StoreReply)
      requires table.Valid()
      modifies this, table
      ensures table.Valid()
      ensures old(form).None? || old(person).None? ==>
        && person == old(person) && form == old(form) && toast == old(toast) && table.rows == old(table.rows)
      ensures old(form).Some? && old(person).Some? && BuildPayload(old(form).value, now).Err? ==>
        && person == old(person) && form == old(form) && table.rows == old(table.rows)
        && toast == Some(Notice(ErrorNotice, BlankNameMessage))
      ensures old(form).Some? && old(person).Some? && BuildPayload(old(form).value, now).Ok? && reply.Rejected? ==>
        && person == old(person) && form == old(form) && table.rows == old(table.rows)
        && toast == Some(Notice(ErrorNotice, FailureMessage(reply.error)))
      ensures old(form).Some? && old(person).Some? && BuildPayload(old(form).value, now).Ok? && reply.Applied? ==>
        && table.rows == UpdateRows(old(table.rows), old(person).value.handle, BuildPayload(old(form).value, now).value)
        && (personHandle == "" ==> person == old(person) && form == old(form))
        && (personHandle != "" && personHandle in table.rows ==>
              person == Some(table.rows[personHandle]) && form == Some(PersonToForm(table.rows[personHandle])))
        && (personHandle != "" && personHandle !in table.rows ==> person == old(person) && form == old(form))
        && toast == Some(if personHandle == "" || personHandle in table.rows then Notice(SuccessNotice, SavedMessage)
                         else Notice(ErrorNotice, NotFoundMessage))
    {
      if form.None? || person.None? {
        return;
      }
      var outcome := BuildPayload(form.value, now);
      if outcome.Err? {
        toast := Some(Notice(ErrorNotice, outcome.message));
        return;
      }
      if reply.Rejected? {
        toast := Some(Notice(ErrorNotice, FailureMessage(reply.error)));
        return;
      }
      Commit(table, outcome.value);
    }

    /** An applied update: the loaded person's row is rewritten, the success toast shown and the row fetched again. */
    method Commit(table: PeopleTable, pl: Payload)
      requires table.Valid() && person.Some?
      modifies this, table
      ensures table.Valid()
      ensures table.rows == UpdateRows(old(table.rows), old(person).value.handle, pl)
      ensures personHandle == "" ==> person == old(person) && form == old(form)
      ensures personHandle != "" && personHandle in table.rows ==>
        person == Some(table.rows[personHandle]) && form == Some(PersonToForm(table.rows[personHandle]))
      ensures personHandle != "" && personHandle !in table.rows ==> person == old(person) && form == old(form)
      ensures toast == Some(if personHandle == "" || personHandle in table.rows then Notice(SuccessNotice, SavedMessage)
                            else Notice(ErrorNotice, NotFoundMessage))
    {
      UpdateKeepsHandles(table.rows, person.value.handle, pl);
      table.rows := UpdateRows(table.rows, person.value.handle, pl);
      toast := Some(Notice(SuccessNotice, SavedMessage));
      FetchPerson(table);
    }

    /** `setField(key, value)`: replaces one key of a loaded form; without a form nothing changes. */
    method SetField(key: FormKey, value: FieldValue)
      requires Fits(key, value)
      modifies this`form
      ensures form == if old(form).Some? then Some(WithField(old(form).value, key, value)) else None
    {
      if form.Some? {
        form := Some(WithField(form.value, key, value));
      }
    }
  }
}
