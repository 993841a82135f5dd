/**
  The lead submission workflow of src/components/landing/LeadForm.tsx once
  the two network calls are taken out: campaign attribution, the persisted
  record, the notification e-mail, the success/failure reconciliation, and
  the error clearing done while the visitor edits the form.

  The insert into the `leads` table and the POST to the notification
  endpoint are not performed here: their results are parameters.
 */
module LeadSubmission {
  import opened Text
  import opened LeadSchema

  /** The five campaign parameters read from the query string ("" when absent). */
  datatype Utm = Utm(source: string, campaign: string, medium: string, term: string, content: string)

  const NoAttribution := Utm("", "", "", "", "")

  /** A column value that may be SQL `null`. */
  datatype Nullable<T> = Null | Value(value: T)

  /** `s || null`: the empty string is stored as `null`. */
  function OrNull(s: string): (r: Nullable<string>)
    ensures r.Null? <==> s == ""
    ensures r.Value? ==> r.value == s
  {
    if s == "" then Null else Value(s)
  }

  /** `s || fallback`: the empty string gives way to the fallback. */
  function OrElse(s: string, fallback: string): (r: string)
    ensures s != "" ==> r == s
    ensures s == "" ==> r == fallback
  {
    if s != "" then s else fallback
  }

  const ManualSelection := "manual_selection"
  const WebsiteForm := "website_form"

  /** The stored `utm_source`: the campaign's source, else the channel the visitor picked. */
  function ResolveSource(utm: Utm, channel: string): (r: string)
    ensures utm.source != "" ==> r == utm.source
    ensures utm.source == "" ==> r == channel
  {
    OrElse(utm.source, channel)
  }

  /**
    The stored `utm_medium`: the campaign's medium, else "manual_selection"
    when a campaign source is present, else "website_form".
   */
  function ResolveMedium(utm: Utm): (r: string)
    ensures utm.medium != "" ==> r == utm.medium
    ensures utm.medium == "" && utm.source != "" ==> r == ManualSelection
    ensures utm.medium == "" && utm.source == "" ==> r == WebsiteForm
  {
    OrElse(utm.medium, if utm.source != "" then ManualSelection else WebsiteForm)
  }

  /** The qualification details the table has no columns for, packed into one line. */
  function Summary(d: FormData): string {
    "Idade: " + d.age + " | Prof: " + d.profession + " | Área: " + d.areaOfActivity
    + " | Canal: " + d.channel
  }

  /** The stored `utm_content`: the summary, then the campaign's own content if any. */
  function Content(d: FormData, utm: Utm): string {
    Summary(d) + (if utm.content != "" then " | " + utm.content else "")
  }

  /** The row inserted into the `leads` table. */
  datatype LeadRecord = LeadRecord(
    name: string,
    email: string,
    phone: string,
    utmSource: string,
    utmCampaign: Nullable<string>,
    utmMedium: string,
    utmTerm: Nullable<string>,
    utmContent: string)

  /** `insertData`: the record built from the form and the campaign parameters. */
  function BuildRecord(d: FormData, utm: Utm): (r: LeadRecord)
    ensures r.name == Trim(d.name) && r.phone == Trim(d.phone)
    ensures r.email == ToLower(Trim(d.email))
    ensures utm.source != "" ==> r.utmSource == utm.source
    ensures utm.source == "" ==> r.utmSource == d.channel
    ensures utm.medium != "" ==> r.utmMedium == utm.medium
    ensures utm.medium == "" && utm.source != "" ==> r.utmMedium == ManualSelection
    ensures utm.medium == "" && utm.source == "" ==> r.utmMedium == WebsiteForm
    ensures r.utmCampaign.Null? <==> utm.campaign == ""
    ensures r.utmTerm.Null? <==> utm.term == ""
    ensures r.utmCampaign.Value? ==> r.utmCampaign.value == utm.campaign
    ensures r.utmTerm.Value? ==> r.utmTerm.value == utm.term
    ensures utm.content == "" ==> r.utmContent == Summary(d)
    ensures utm.content != "" ==> r.utmContent == Summary(d) + " | " + utm.content
  {
    LeadRecord(
      Trim(d.name),
      ToLower(Trim(d.email)),
      Trim(d.phone),
      ResolveSource(utm, d.channel),
      OrNull(utm.campaign),
      ResolveMedium(utm),
      OrNull(utm.term),
      Content(d, utm))
  }

  /**
    "manual_selection" is stored exactly when the campaign says so itself, or
    when a campaign source came without a medium.
   */
  lemma ManualSelectionIff(d: FormData, utm: Utm)
    ensures BuildRecord(d, utm).utmMedium == ManualSelection <==>
      utm.medium == ManualSelection || (utm.medium == "" && utm.source != "")
  {
  }

  /**
    "website_form" is stored exactly when the campaign says so itself, or when
    the link carried neither a source nor a medium.
   */
  lemma WebsiteFormIff(d: FormData, utm: Utm)
    ensures BuildRecord(d, utm).utmMedium == WebsiteForm <==>
      utm.medium == WebsiteForm || (utm.medium == "" && utm.source == "")
  {
  }

  /**
    The campaign's own `utm_content` survives unchanged at the end of the
    stored value, after the summary and a " | " separator; without one the
    stored value is the summary alone.
   */
  lemma ContentRecoverable(d: FormData, utm: Utm)
    ensures var c := BuildRecord(d, utm).utmContent;
      && |Summary(d)| <= |c|
      && c[..|Summary(d)|] == Summary(d)
      && (utm.content == "" <==> |c| == |Summary(d)|)
      && (utm.content != "" ==> c[|Summary(d)| + 3..] == utm.content)
  {
    var c := BuildRecord(d, utm).utmContent;
    assert c == Summary(d) + (if utm.content != "" then " | " + utm.content else "");
    if utm.content != "" {
      assert c == Summary(d) + (" | " + utm.content);
      assert c[|Summary(d)| + 3..] == (" | " + utm.content)[3..];
    }
  }

  /**
    The record of an accepted form is normalised and respects the schema's
    bounds: trimmed name and phone of admissible length, and a trimmed,
    lower-case address of at most 255 characters. Normalising it again
    changes nothing.
   */
  lemma RecordWithinSchema(d: FormData, utm: Utm, lib: Library)
    requires Valid(d, lib)
    ensures var r := BuildRecord(d, utm);
      && 2 <= |r.name| <= 100 && Trimmed(r.name) && Trim(r.name) == r.name
      && 10 <= |r.phone| <= 20 && Trimmed(r.phone) && Trim(r.phone) == r.phone
      && |r.email| <= 255 && Trimmed(r.email) && NoUpper(r.email)
      && ToLower(Trim(r.email)) == r.email
  {
    var r := BuildRecord(d, utm);
    assert 2 <= |r.name| <= 100 && Trimmed(r.name) && Trim(r.name) == r.name by {
      TrimIdempotent(d.name);
    }
    assert 10 <= |r.phone| <= 20 && Trimmed(r.phone) && Trim(r.phone) == r.phone by {
      TrimIdempotent(d.phone);
    }
    assert |r.email| <= 255 && Trimmed(r.email) && NoUpper(r.email) && ToLower(Trim(r.email)) == r.email by {
      NormalisedEmail(d.email);
    }
  }

  /** The stored address is trimmed and lower-case, and normalising it again changes nothing. */
  lemma NormalisedEmail(s: string)
    ensures var e := ToLower(Trim(s));
      Trimmed(e) && NoUpper(e) && ToLower(Trim(e)) == e && |e| == |Trim(s)|
  {
    var e := ToLower(Trim(s));
    ToLowerTrimCommute(s);
    ToLowerIdempotent(Trim(s));
    TrimPadded([], e, []);
    assert [] + e + [] == e;
  }

  /** Subject line when the record was stored. */
  const SubjectSaved := "Novo Lead Capturado - Dados Completos!"
  /** Subject line when storing the record failed. */
  const SubjectUnsaved := "NOVO LEAD (ALERTA: Falha no Supabase!)"
  const Template := "basic"
  const DirectOrigin := "Direto"
  const NoCampaign := "Nenhuma"

  /** Result of the insert: stored, or failed with the error's text. */
  datatype Persisted = Saved | Failed(detail: string)

  /** The warning added to the e-mail when the insert failed. */
  function Warning(detail: string): string {
    "Este lead NÃO foi salvo no banco de dados devido ao erro: " + detail + "."
  }

  /** The labelled fields every notification carries. */
  datatype Letter = Letter(
    nome: string,
    email: string,
    telefone: string,
    idade: string,
    profissao: string,
    area: string,
    comoConheceu: string,
    origem: string,
    campanha: string,
    subject: string)

  /** `emailData`: the plain letter, or the letter with an `AVISO` warning. */
  datatype Notification = Plain(letter: Letter) | Warned(letter: Letter, aviso: string)

  /** The notification built after the insert has been attempted. */
  function BuildNotification(d: FormData, utm: Utm, persisted: Persisted): (n: Notification)
    ensures n.Plain? <==> persisted.Saved?
    ensures n.letter.subject == (if persisted.Saved? then SubjectSaved else SubjectUnsaved)
    ensures persisted.Failed? ==> n.aviso == Warning(persisted.detail)
    ensures n.letter.nome == Trim(d.name) && n.letter.telefone == Trim(d.phone)
    ensures n.letter.email == ToLower(Trim(d.email))
    ensures n.letter.idade == d.age && n.letter.profissao == d.profession
    ensures n.letter.area == d.areaOfActivity && n.letter.comoConheceu == d.channel
    ensures n.letter.origem == (if utm.source != "" then utm.source else DirectOrigin)
    ensures n.letter.campanha == (if utm.campaign != "" then utm.campaign else NoCampaign)
  {
    var letter := Letter(
      Trim(d.name),
      ToLower(Trim(d.email)),
      Trim(d.phone),
      d.age,
      d.profession,
      d.areaOfActivity,
      d.channel,
      OrElse(utm.source, DirectOrigin),
      OrElse(utm.campaign, NoCampaign),
      if persisted.Saved? then SubjectSaved else SubjectUnsaved);
    match persisted
    case Saved => Plain(letter)
    case Failed(detail) => Warned(letter, Warning(detail))
  }

  /** The keys of the letter's fields in the order the body lists them. */
  const LetterKeys: seq<string> := [
    "Nome", "E-mail", "Telefone", "Idade", "Profissão", "Área de Atuação", "Como conheceu",
    "Origem (UTM Source)", "Campanha (UTM Campaign)", "_subject", "_template"]

  /** The key of the warning added when the insert failed. */
  const WarningKey := "AVISO"

  function LetterValues(l: Letter): (v: seq<string>)
    ensures |v| == |LetterKeys|
  {
    [l.nome, l.email, l.telefone, l.idade, l.profissao, l.area, l.comoConheceu,
     l.origem, l.campanha, l.subject, Template]
  }

  /** The JSON body posted to the notification endpoint, as keys and values in insertion order. */
  function Body(n: Notification): (b: seq<(string, string)>)
    ensures |b| == |LetterKeys| + (if n.Warned? then 1 else 0)
    ensures forall i :: 0 <= i < |LetterKeys| ==> b[i] == (LetterKeys[i], LetterValues(n.letter)[i])
    ensures n.Warned? ==> b[|LetterKeys|] == (WarningKey, n.aviso)
  {
    var vs := LetterValues(n.letter);
    var base := seq(|LetterKeys|, i requires 0 <= i < |LetterKeys| => (LetterKeys[i], vs[i]));
    match n
    case Plain(_) => base
    case Warned(_, aviso) => base + [(WarningKey, aviso)]
  }

  /** The body has the key `k`. */
  predicate HasKey(b: seq<(string, string)>, k: string) {
    exists i :: 0 <= i < |b| && b[i].0 == k
  }

  lemma WarningKeyIsExtra()
    ensures WarningKey !in LetterKeys
  {
    forall i | 0 <= i < |LetterKeys|
      ensures LetterKeys[i] != WarningKey
    {
      assert LetterKeys[i][0] != 'A' || |LetterKeys[i]| != 5;
    }
  }

  /**
    The posted body carries an `AVISO` key exactly when the notification is
    the warned one, as its last entry; the subject and template entries
    always come just before it.
   */
  lemma WarningIffWarned(n: Notification)
    ensures HasKey(Body(n), WarningKey) <==> n.Warned?
    ensures |Body(n)| == if n.Warned? then 12 else 11
    ensures n.Warned? ==> Body(n)[11] == (WarningKey, n.aviso)
    ensures Body(n)[9] == ("_subject", n.letter.subject)
    ensures Body(n)[10] == ("_template", Template)
  {
    var b := Body(n);
    WarningKeyIsExtra();
    if n.Warned? {
      assert b[11].0 == WarningKey;
    } else {
      forall i | 0 <= i < |b|
        ensures b[i].0 != WarningKey
      {
        assert b[i].0 == LetterKeys[i];
      }
    }
  }

  /**
    The subject says whether the record was stored, and the `AVISO` key,
    holding the insert's error text, is present exactly when it was not.
   */
  lemma WarningIffUnsaved(d: FormData, utm: Utm, persisted: Persisted)
    ensures var b := Body(BuildNotification(d, utm, persisted));
      && (HasKey(b, WarningKey) <==> persisted.Failed?)
      && (persisted.Failed? ==> b[11] == (WarningKey, Warning(persisted.detail)))
      && b[9] == ("_subject", if persisted.Saved? then SubjectSaved else SubjectUnsaved)
  {
    WarningIffWarned(BuildNotification(d, utm, persisted));
  }

  /** The form's state between renders. */
  datatype FormState = FormState(data: FormData, errors: map<Field, string>, submitted: bool)

  /** The form as it first appears: every field blank, no error showing, not yet sent. */
  const InitialState := FormState(EmptyForm, map[], false)

  /** What one press of the submit button leads to. */
  datatype Outcome =
    | Invalid(errors: map<Field, string>)
    | Attempted(record: LeadRecord, notification: Notification, succeeded: bool)

  datatype Submission = Submission(outcome: Outcome, next: FormState)

  /**
    `handleSubmit`. A form that fails the schema yields only its error map:
    nothing is inserted and nothing is sent. Otherwise the insert is tried,
    the notification is sent whatever the insert did, and the attempt
    succeeds when either channel did. Success clears the form and shows the
    confirmation; total failure keeps every value the visitor typed.
   */
  function HandleSubmit(st: FormState, utm: Utm, lib: Library, persisted: Persisted, notified: bool): (r: Submission)
    ensures r.outcome.Invalid? <==> !Valid(st.data, lib)
    ensures r.outcome.Invalid? ==>
      && r.next == st.(errors := r.outcome.errors)
      && (forall f :: f in r.outcome.errors <==> !FieldValid(f, st.data, lib))
      && (forall f :: f in r.outcome.errors ==> r.outcome.errors[f] == LastMessage(FieldIssues(f, st.data, lib)))
    ensures r.outcome.Attempted? ==>
      && r.outcome.record == BuildRecord(st.data, utm)
      && r.outcome.notification == BuildNotification(st.data, utm, persisted)
      && (r.outcome.succeeded <==> persisted.Saved? || notified)
      && r.next.errors == map[]
    ensures r.outcome.Attempted? && r.outcome.succeeded ==>
      r.next.data == EmptyForm && r.next.submitted
    ensures r.outcome.Attempted? && !r.outcome.succeeded ==>
      r.next.data == st.data && r.next.submitted == st.submitted
  {
    match Validate(st.data, lib)
    case Rejected(errors) => Submission(Invalid(errors), st.(errors := errors))
    case Accepted =>
      var record := BuildRecord(st.data, utm);
      var notification := BuildNotification(st.data, utm, persisted);
      var succeeded := persisted.Saved? || notified;
      if succeeded then
        Submission(Attempted(record, notification, true), FormState(EmptyForm, map[], true))
      else
        Submission(Attempted(record, notification, false), FormState(st.data, map[], st.submitted))
  }

  /**
    The notification does not depend on whether the insert worked, except
    for its subject and warning: the same record and the same labelled fields
    go out either way.
   */
  lemma NotifyRegardlessOfPersistence(st: FormState, utm: Utm, lib: Library, p1: Persisted, p2: Persisted, n1: bool, n2: bool)
    requires Valid(st.data, lib)
    ensures var a := HandleSubmit(st, utm, lib, p1, n1).outcome;
      var b := HandleSubmit(st, utm, lib, p2, n2).outcome;
      && a.Attempted? && b.Attempted?
      && a.record == b.record
      && a.notification.letter.(subject := "") == b.notification.letter.(subject := "")
  {
  }

  /**
    After a total failure the form is unchanged, so pressing submit again
    with the same campaign parameters rebuilds exactly the same record: the
    visitor need not retype anything, and no deduplication takes place.
   */
  lemma RetryAfterFailureRebuildsRecord(st: FormState, utm: Utm, lib: Library, p1: Persisted, p2: Persisted, n2: bool)
    requires Valid(st.data, lib)
    requires p1.Failed?
    ensures var first := HandleSubmit(st, utm, lib, p1, false);
      && first.outcome.Attempted? && !first.outcome.succeeded
      && var again := HandleSubmit(first.next, utm, lib, p2, n2);
      && again.outcome.Attempted?
      && again.outcome.record == first.outcome.record
  {
  }

  /**
    After a success every field is blank. The confirmation then replaces the
    form, so nothing more can be sent from it; and a blank form would not pass
    the schema anyway, so a second press would reach no network call.
   */
  lemma ResubmitAfterSuccessRejected(st: FormState, utm: Utm, lib: Library, p1: Persisted, p2: Persisted, n1: bool, n2: bool)
    requires Valid(st.data, lib)
    requires p1.Saved? || n1
    ensures var first := HandleSubmit(st, utm, lib, p1, n1);
      && first.outcome.Attempted? && first.outcome.succeeded
      && HandleSubmit(first.next, utm, lib, p2, n2).outcome.Invalid?
  {
    EmptyFormRejected(lib);
  }

  /**
    Pressing submit on the form as it first appears reaches no network call:
    the schema rejects it, asks for the channel, and the form stays blank and
    unsent.
   */
  lemma InitialSubmitRejected(utm: Utm, lib: Library, persisted: Persisted, notified: bool)
    ensures var r := HandleSubmit(InitialState, utm, lib, persisted, notified);
      && r.outcome.Invalid?
      && Channel in r.outcome.errors && r.outcome.errors[Channel] == ChannelMissing
      && r.next.data == EmptyForm && !r.next.submitted
  {
    EmptyFormRejected(lib);
  }

  /**
    `handleChange` (and, for the channel, `handleSelectChange`): the field
    takes the new value; its error, if one is showing, is blanked; nothing
    else changes.
   */
  function HandleChange(st: FormState, f: Field, v: string): (r: FormState)
    ensures Get(r.data, f) == v
    ensures forall g :: g != f ==> Get(r.data, g) == Get(st.data, g)
    ensures forall g :: g != f ==> (g in r.errors <==> g in st.errors)
    ensures forall g :: g != f && g in st.errors ==> r.errors[g] == st.errors[g]
    ensures f in st.errors && st.errors[f] != "" ==> f in r.errors && r.errors[f] == ""
    ensures !(f in st.errors && st.errors[f] != "") ==> r.errors == st.errors
    ensures r.submitted == st.submitted
  {
    var errors := if f in st.errors && st.errors[f] != "" then st.errors[f := ""] else st.errors;
    FormState(Set(st.data, f, v), errors, st.submitted)
  }

  /** `handleSelectChange`: choosing a channel is an edit of the channel field. */
  function HandleSelectChange(st: FormState, v: string): (r: FormState)
    ensures r.data == st.data.(channel := v)
    ensures Channel in st.errors && st.errors[Channel] != "" ==> r.errors == st.errors[Channel := ""]
    ensures !(Channel in st.errors && st.errors[Channel] != "") ==> r.errors == st.errors
    ensures r.submitted == st.submitted
  {
    HandleChange(st, Channel, v)
  }

  /** Editing a field leaves no message showing for it, and editing twice is editing once. */
  lemma EditClearsOwnError(st: FormState, f: Field, v: string, w: string)
    ensures var r := HandleChange(st, f, v);
      f !in r.errors || r.errors[f] == ""
    ensures HandleChange(HandleChange(st, f, v), f, w) == HandleChange(st, f, w)
  {
    var r := HandleChange(st, f, v);
    var r2 := HandleChange(r, f, w);
    var d := HandleChange(st, f, w);
    forall g ensures Get(r2.data, g) == Get(d.data, g) { }
    FormDataExtensional(r2.data, d.data);
  }

  lemma FormDataExtensional(a: FormData, b: FormData)
    requires forall g :: Get(a, g) == Get(b, g)
    ensures a == b
  {
    assert Get(a, Name) == Get(b, Name) && Get(a, Email) == Get(b, Email);
    assert Get(a, Phone) == Get(b, Phone) && Get(a, Age) == Get(b, Age);
    assert Get(a, Profession) == Get(b, Profession);
    assert Get(a, AreaOfActivity) == Get(b, AreaOfActivity) && Get(a, Channel) == Get(b, Channel);
  }

}
