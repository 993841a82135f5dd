/**
  The worked example of the lead submission workflow: a lead with a padded,
  mixed-case address and no campaign parameters, stored and notified.
 */
module LeadExample {
  import opened Text
  import opened LeadSchema
  import opened LeadSubmission

  lemma AnaSilvaValid(d: FormData, lib: Library)
    requires d.name == "Ana Silva" && d.email == "ANA@Test.com " && d.phone == "11999990000" && d.age == "29"
    requires d.profession == "Advogada" && d.areaOfActivity == "Jurídico" && d.channel == "Instagram"
    requires lib.isEmail("ANA@Test.com")
    requires lib.coerce("29") == Number(29)
    ensures Valid(d, lib)
    ensures Trim(d.email) == "ANA@Test.com"
  {
    assert FieldValid(Name, d, lib) by { TrimNoop(d.name); }
    assert Trim(d.email) == "ANA@Test.com" by {
      var e := d.email[..|d.email| - 1];
      TrimPadded([], e, [' ']);
      assert [] + e + [' '] == d.email;
      assert e == "ANA@Test.com";
    }
    assert FieldValid(Phone, d, lib) by { TrimNoop(d.phone); }
    assert FieldValid(Profession, d, lib) by { TrimNoop(d.profession); }
    assert FieldValid(AreaOfActivity, d, lib) by { TrimNoop(d.areaOfActivity); }
  }

  lemma AnaSilvaSummary(d: FormData)
    requires d.age == "29" && d.profession == "Advogada" && d.areaOfActivity == "Jurídico" && d.channel == "Instagram"
    ensures Summary(d) == "Idade: 29 | Prof: Advogada | Área: Jurídico | Canal: Instagram"
  {
    assert Summary(d) == "Idade: " + "29" + " | Prof: " + "Advogada" + " | Área: " + "Jurídico" + " | Canal: " + "Instagram";
    assert "Idade: " + "29" == "Idade: 29";
    assert "Idade: 29" + " | Prof: " == "Idade: 29 | Prof: ";
    assert "Idade: 29 | Prof: " + "Advogada" == "Idade: 29 | Prof: Advogada";
    assert "Idade: 29 | Prof: Advogada" + " | Área: " == "Idade: 29 | Prof: Advogada | Área: ";
    assert "Idade: 29 | Prof: Advogada | Área: " + "Jurídico" == "Idade: 29 | Prof: Advogada | Área: Jurídico";
    assert "Idade: 29 | Prof: Advogada | Área: Jurídico" + " | Canal: "
      == "Idade: 29 | Prof: Advogada | Área: Jurídico | Canal: ";
    assert "Idade: 29 | Prof: Advogada | Área: Jurídico | Canal: " + "Instagram"
      == "Idade: 29 | Prof: Advogada | Área: Jurídico | Canal: Instagram";
  }

  lemma AnaSilvaRecord(d: FormData)
    requires d.name == "Ana Silva" && d.email == "ANA@Test.com " && d.phone == "11999990000" && d.age == "29"
    requires d.profession == "Advogada" && d.areaOfActivity == "Jurídico" && d.channel == "Instagram"
    requires Trim(d.email) == "ANA@Test.com"
    ensures BuildRecord(d, NoAttribution) == LeadRecord(
      "Ana Silva", "ana@test.com", "11999990000", "Instagram", Null, "website_form", Null,
      "Idade: 29 | Prof: Advogada | Área: Jurídico | Canal: Instagram")
  {
    TrimNoop(d.name);
    TrimNoop(d.phone);
    var e := Trim(d.email);
    assert ToLower(e) == "ana@test.com";
    AnaSilvaSummary(d);
    assert ResolveMedium(NoAttribution) == "website_form";
  }

  /**
    The address is stored trimmed and lower-cased, the channel stands in for
    the missing campaign source, the medium falls back to "website_form",
    and the qualification details are packed into `utm_content`.
   */
  lemma AnaSilvaExample(d: FormData, lib: Library)
    requires d.name == "Ana Silva" && d.email == "ANA@Test.com " && d.phone == "11999990000" && d.age == "29"
    requires d.profession == "Advogada" && d.areaOfActivity == "Jurídico" && d.channel == "Instagram"
    requires lib.isEmail("ANA@Test.com")
    requires lib.coerce("29") == Number(29)
    ensures var r := HandleSubmit(FormState(d, map[], false), NoAttribution, lib, Saved, true);
      && r.outcome.Attempted? && r.outcome.succeeded
      && r.outcome.record.email == "ana@test.com"
      && r.outcome.record.utmSource == "Instagram"
      && r.outcome.record.utmMedium == "website_form"
      && r.outcome.record.utmContent == "Idade: 29 | Prof: Advogada | Área: Jurídico | Canal: Instagram"
      && r.outcome.notification.letter.subject == SubjectSaved
      && r.next == FormState(EmptyForm, map[], true)
  {
    AnaSilvaValid(d, lib);
    AnaSilvaRecord(d);
  }
}
