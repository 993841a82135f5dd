/**
  The lead form's validation schema and the per-field error map built from
  its issues (src/components/landing/LeadForm.tsx, `leadSchema` and the
  first half of `handleSubmit`).
 */
module LeadSchema {
  import opened Text

  /** The seven form fields, in the order the schema declares them. */
  datatype Field = Name | Email | Phone | Age | Profession | AreaOfActivity | Channel

  /** The form as the browser holds it: every value is raw text. */
  datatype FormData = FormData(
    name: string,
    email: string,
    phone: string,
    age: string,
    profession: string,
    areaOfActivity: string,
    channel: string)

  /** The value `handleChange` names by field. */
  function Get(d: FormData, f: Field): string {
    match f
    case Name => d.name
    case Email => d.email
    case Phone => d.phone
    case Age => d.age
    case Profession => d.profession
    case AreaOfActivity => d.areaOfActivity
    case Channel => d.channel
  }

  /** The form with field `f` replaced by `v` (`{ ...prev, [name]: value }`). */
  function Set(d: FormData, f: Field, v: string): (r: FormData)
    ensures Get(r, f) == v
    ensures forall g :: g != f ==> Get(r, g) == Get(d, g)
  {
    match f
    case Name => d.(name := v)
    case Email => d.(email := v)
    case Phone => d.(phone := v)
    case Age => d.(age := v)
    case Profession => d.(profession := v)
    case AreaOfActivity => d.(areaOfActivity := v)
    case Channel => d.(channel := v)
  }

  /** Both the initial form and the form after a successful submission. */
  const EmptyForm := FormData("", "", "", "", "", "", "")

  /** What `z.coerce.number()` makes of the age text. */
  datatype Coerced = NotANumber | Number(value: int)

  /**
    The two library judgements the schema delegates: the email syntax check
    and the numeric coercion of the age text.
   */
  datatype Library = Library(isEmail: string -> bool, coerce: string -> Coerced)

  /** One failed check: the field it belongs to and its message. */
  datatype Issue = Issue(field: Field, message: string)

  const NameTooShort := "Nome deve ter pelo menos 2 caracteres"
  const NameTooLong := "Nome muito longo"
  const EmailInvalid := "E-mail inválido"
  const EmailTooLong := "E-mail muito longo"
  const PhoneTooShort := "Telefone deve ter pelo menos 10 dígitos"
  const PhoneTooLong := "Telefone muito longo"
  /** zod's own message for a coercion that produced NaN. */
  const AgeNotANumber := "Expected number, received nan"
  const AgeTooLow := "Você deve ser maior de 18 anos"
  const AgeTooHigh := "Idade inválida"
  const ProfessionMissing := "Profissão é obrigatória"
  const AreaMissing := "Área de atuação é obrigatória"
  const ChannelMissing := "Selecione por onde nos conheceu"

  /** A single check: one issue when it fails, none when it passes. */
  function Check(ok: bool, f: Field, message: string): seq<Issue> {
    if ok then [] else [Issue(f, message)]
  }

  /**
    The issues one field raises, in the order its checks are chained. String
    checks do not stop at the first failure, so a field can raise two; a NaN
    age stops before the bounds are looked at.
   */
  function FieldIssues(f: Field, d: FormData, lib: Library): (r: seq<Issue>)
    ensures forall i :: 0 <= i < |r| ==> r[i].field == f
    ensures |r| <= 2
  {
    match f
    case Name =>
      var t := Trim(d.name);
      Check(|t| >= 2, Name, NameTooShort) + Check(|t| <= 100, Name, NameTooLong)
    case Email =>
      var t := Trim(d.email);
      Check(lib.isEmail(t), Email, EmailInvalid) + Check(|t| <= 255, Email, EmailTooLong)
    case Phone =>
      var t := Trim(d.phone);
      Check(|t| >= 10, Phone, PhoneTooShort) + Check(|t| <= 20, Phone, PhoneTooLong)
    case Age =>
      (match lib.coerce(d.age)
       case NotANumber => [Issue(Age, AgeNotANumber)]
       case Number(n) => Check(n >= 18, Age, AgeTooLow) + Check(n <= 120, Age, AgeTooHigh))
    case Profession => Check(|Trim(d.profession)| >= 2, Profession, ProfessionMissing)
    case AreaOfActivity => Check(|Trim(d.areaOfActivity)| >= 2, AreaOfActivity, AreaMissing)
    case Channel => Check(|d.channel| >= 1, Channel, ChannelMissing)
  }

  /** The order in which the schema declares, and so checks, its fields. */
  const SchemaOrder: seq<Field> := [Name, Email, Phone, Age, Profession, AreaOfActivity, Channel]

  /** The schema names every field once. */
  lemma SchemaOrderComplete()
    ensures forall f: Field :: f in SchemaOrder
    ensures forall i, j :: 0 <= i < j < |SchemaOrder| ==> SchemaOrder[i] != SchemaOrder[j]
  {
    forall f: Field
      ensures f in SchemaOrder
    {
      match f
      case Name => assert SchemaOrder[0] == f;
      case Email => assert SchemaOrder[1] == f;
      case Phone => assert SchemaOrder[2] == f;
      case Age => assert SchemaOrder[3] == f;
      case Profession => assert SchemaOrder[4] == f;
      case AreaOfActivity => assert SchemaOrder[5] == f;
      case Channel => assert SchemaOrder[6] == f;
    }
  }

  /** The issues of the fields `fs`, field after field. */
  function IssuesOf(fs: seq<Field>, d: FormData, lib: Library): seq<Issue> {
    if fs == [] then [] else IssuesOf(fs[..|fs| - 1], d, lib) + FieldIssues(fs[|fs| - 1], d, lib)
  }

  /** Every issue the schema reports, field by field in declaration order. */
  function Issues(d: FormData, lib: Library): seq<Issue> {
    IssuesOf(SchemaOrder, d, lib)
  }

  /** The acceptance rule for one field, stated as bounds. */
  predicate FieldValid(f: Field, d: FormData, lib: Library) {
    match f
    case Name => 2 <= |Trim(d.name)| <= 100
    case Email => lib.isEmail(Trim(d.email)) && |Trim(d.email)| <= 255
    case Phone => 10 <= |Trim(d.phone)| <= 20
    case Age => lib.coerce(d.age).Number? && 18 <= lib.coerce(d.age).value <= 120
    case Profession => |Trim(d.profession)| >= 2
    case AreaOfActivity => |Trim(d.areaOfActivity)| >= 2
    case Channel => |d.channel| >= 1
  }

  /** The whole form passes the schema. */
  predicate Valid(d: FormData, lib: Library) {
    && FieldValid(Name, d, lib) && FieldValid(Email, d, lib) && FieldValid(Phone, d, lib)
    && FieldValid(Age, d, lib) && FieldValid(Profession, d, lib)
    && FieldValid(AreaOfActivity, d, lib) && FieldValid(Channel, d, lib)
  }

  /** A field raises an issue exactly when it breaks its bounds. */
  lemma FieldIssuesIff(f: Field, d: FormData, lib: Library)
    ensures FieldIssues(f, d, lib) == [] <==> FieldValid(f, d, lib)
  {
  }

  /** The field of every issue in `s`. */
  function FieldsOf(s: seq<Issue>): (r: set<Field>)
    ensures forall f :: f in r <==> exists i :: 0 <= i < |s| && s[i].field == f
  {
    if s == [] then {}
    else
      var init := s[..|s| - 1];
      assert forall i :: 0 <= i < |init| ==> init[i] == s[i];
      FieldsOf(init) + {s[|s| - 1].field}
  }

  /**
    The error map `handleSubmit` builds: issues are written in order into a
    record keyed by field, so a later message for a field overwrites an
    earlier one.
   */
  function ErrorMap(s: seq<Issue>): (m: map<Field, string>)
    ensures s != [] ==> s[|s| - 1].field in m && m[s[|s| - 1].field] == s[|s| - 1].message
  {
    if s == [] then map[]
    else ErrorMap(s[..|s| - 1])[s[|s| - 1].field := s[|s| - 1].message]
  }

  /** No issue after index `i` concerns the same field as issue `i`. */
  predicate LastFor(s: seq<Issue>, i: int)
    requires 0 <= i < |s|
  {
    forall j :: i < j < |s| ==> s[j].field != s[i].field
  }

  /**
    The error map has a key for each field that raised an issue, and holds the
    message of that field's last issue.
   */
  lemma ErrorMapLastWins(s: seq<Issue>)
    ensures ErrorMap(s).Keys == FieldsOf(s)
    ensures forall i :: 0 <= i < |s| && LastFor(s, i) ==> ErrorMap(s)[s[i].field] == s[i].message
  {
    ErrorMapKeys(s);
    forall i | 0 <= i < |s| && LastFor(s, i)
      ensures ErrorMap(s)[s[i].field] == s[i].message
    {
      LastWinsAt(s, i);
    }
  }

  /** The last issue for a field decides that field's entry. */
  lemma {:induction false} LastWinsAt(s: seq<Issue>, i: int)
    requires 0 <= i < |s| && LastFor(s, i)
    ensures s[i].field in ErrorMap(s) && ErrorMap(s)[s[i].field] == s[i].message
    decreases |s|
  {
    if i < |s| - 1 {
      LastForInit(s, i);
      LastWinsAt(s[..|s| - 1], i);
      assert s[..|s| - 1][i] == s[i];
    }
  }

  /** The error map has a key exactly for each field that raised an issue. */
  lemma {:induction false} ErrorMapKeys(s: seq<Issue>)
    ensures ErrorMap(s).Keys == FieldsOf(s)
  {
    if s != [] {
      ErrorMapKeys(s[..|s| - 1]);
    }
  }

  /** An issue that is last for its field, before the final issue, is last in the shorter list too. */
  lemma LastForInit(s: seq<Issue>, i: int)
    requires 0 <= i < |s| - 1 && LastFor(s, i)
    ensures LastFor(s[..|s| - 1], i)
    ensures s[i].field != s[|s| - 1].field
  {
    var init := s[..|s| - 1];
    forall j | i < j < |init|
      ensures init[j].field != init[i].field
    {
      assert init[j] == s[j];
    }
  }

  /** Writing two runs of issues in turn: the second run's entries win. */
  lemma {:induction false} ErrorMapAppend(a: seq<Issue>, b: seq<Issue>)
    ensures ErrorMap(a + b) == ErrorMap(a) + ErrorMap(b)
    decreases |b|
  {
    if b == [] {
      assert a + b == a;
    } else {
      var b' := b[..|b| - 1];
      assert (a + b)[..|a + b| - 1] == a + b';
      ErrorMapAppend(a, b');
    }
  }

  /** The errors one field contributes on its own. */
  function FieldErrors(f: Field, d: FormData, lib: Library): (m: map<Field, string>)
    ensures m.Keys <= {f}
    ensures f in m <==> !FieldValid(f, d, lib)
    ensures f in m ==> m[f] == LastMessage(FieldIssues(f, d, lib))
  {
    var s := FieldIssues(f, d, lib);
    FieldIssuesIff(f, d, lib);
    ErrorMapLastWins(s);
    assert s != [] ==> LastFor(s, |s| - 1);
    ErrorMap(s)
  }

  /** The message of the last issue in a non-empty list, "" otherwise. */
  function LastMessage(s: seq<Issue>): string {
    if s == [] then "" else s[|s| - 1].message
  }

  /**
    Checking distinct fields one after another and writing their issues into
    one record gives an entry exactly for each failing field, holding the
    message of that field's last failed check.
   */
  lemma {:induction false} ErrorMapOfFields(fs: seq<Field>, d: FormData, lib: Library)
    requires forall i, j :: 0 <= i < j < |fs| ==> fs[i] != fs[j]
    ensures forall f :: f in ErrorMap(IssuesOf(fs, d, lib)) <==> f in fs && !FieldValid(f, d, lib)
    ensures forall f :: f in ErrorMap(IssuesOf(fs, d, lib)) ==>
      ErrorMap(IssuesOf(fs, d, lib))[f] == LastMessage(FieldIssues(f, d, lib))
  {
    if fs != [] {
      var init := fs[..|fs| - 1];
      var last := fs[|fs| - 1];
      ErrorMapOfFields(init, d, lib);
      ErrorMapAppend(IssuesOf(init, d, lib), FieldIssues(last, d, lib));
      var before := ErrorMap(IssuesOf(init, d, lib));
      var own := FieldErrors(last, d, lib);
      assert ErrorMap(IssuesOf(fs, d, lib)) == before + own;
      assert last !in init;
      assert forall f :: f in fs <==> f in init || f == last;
    }
  }

  /** Outcome of validation: accepted, or the per-field error map. */
  datatype Verdict = Accepted | Rejected(errors: map<Field, string>)

  /** `leadSchema.safeParse` followed by the error-map construction. */
  function Validate(d: FormData, lib: Library): (r: Verdict)
    ensures r.Accepted? <==> Valid(d, lib)
    ensures r.Rejected? ==> forall f :: f in r.errors <==> !FieldValid(f, d, lib)
    ensures r.Rejected? ==> forall f :: f in r.errors ==> r.errors[f] == LastMessage(FieldIssues(f, d, lib))
  {
    var s := Issues(d, lib);
    SchemaOrderComplete();
    ErrorMapOfFields(SchemaOrder, d, lib);
    ErrorMapLastWins(s);
    assert Valid(d, lib) <==> forall f: Field :: FieldValid(f, d, lib);
    if s == [] then Accepted
    else
      assert s[0].field in ErrorMap(s);
      Rejected(ErrorMap(s))
  }

  /** An address that is both malformed and too long reports only the length message. */
  lemma EmailLastMessageWins(d: FormData, lib: Library)
    requires !lib.isEmail(Trim(d.email)) && |Trim(d.email)| > 255
    ensures Validate(d, lib).Rejected?
    ensures Validate(d, lib).errors[Email] == EmailTooLong
  {
    assert !FieldValid(Email, d, lib);
    assert FieldIssues(Email, d, lib) == [Issue(Email, EmailInvalid), Issue(Email, EmailTooLong)];
  }

  /** A form that breaks exactly one rule is rejected with an error for that field alone. */
  lemma SingleViolation(d: FormData, lib: Library, f: Field)
    requires !FieldValid(f, d, lib)
    requires forall g :: g != f ==> FieldValid(g, d, lib)
    ensures Validate(d, lib).Rejected?
    ensures Validate(d, lib).errors.Keys == {f}
  {
  }

  /** The blank form never passes: at the least, no channel is selected. */
  lemma EmptyFormRejected(lib: Library)
    ensures Validate(EmptyForm, lib).Rejected?
    ensures Channel in Validate(EmptyForm, lib).errors
    ensures Validate(EmptyForm, lib).errors[Channel] == ChannelMissing
  {
    assert FieldIssues(Channel, EmptyForm, lib) == [Issue(Channel, ChannelMissing)];
  }
}
