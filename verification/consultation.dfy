/** One consultation end to end: the form's payload, its encoding by the
    backend, and the report drawn from that encoding. */
module Consultation {
  import opened Base
  import opened Catalogue
  import opened Categories
  import opened Encoder
  import opened Intake
  import opened Selection
  import opened Report

  /** The saved patient data of the form. */
  datatype Form = Form(nome: string, date: Date, idade: int, sexo: string, alturaCm: real, peso: real)

  /** `strftime("%Y-%m-%d")`. */
  function IsoDate(d: Date): (s: string)
    requires FourDigitYear(d)
    ensures |s| == 10 && s[4] == '-' && s[7] == '-'
    ensures ReadDigits(s[0..4]) == d.year && ReadDigits(s[5..7]) == d.month && ReadDigits(s[8..10]) == d.day
  {
    var y, m, dd := Pad(d.year, 4), Pad(d.month, 2), Pad(d.day, 2);
    var s := y + "-" + m + "-" + dd;
    assert s[0..4] == y && s[5..7] == m && s[8..10] == dd;
    PadRoundTrip(d.year, 4);
    PadRoundTrip(d.month, 2);
    PadRoundTrip(d.day, 2);
    s
  }

  /** The selected keys as list entries of the payload. */
  function KeyEntries(sel: seq<string>): (entries: seq<Entry>)
    ensures |entries| == |sel|
    ensures forall i :: 0 <= i < |sel| ==> entries[i] == Key(sel[i])
  {
    seq(|sel|, i requires 0 <= i < |sel| => Key(sel[i]))
  }

  /** The payload the form posts: sex sent as "F" or "M", height in metres,
      the selection as it stands. */
  function BuildPayload(f: Form, sel: seq<string>): (p: Payload)
    requires FourDigitYear(f.date)
    ensures p.comorbidades == Listed(KeyEntries(sel))
  {
    Payload(
      Some(f.nome),
      Some(IsoDate(f.date)),
      Some(f.idade as real),
      Some(if f.sexo == "Feminino" then "F" else "M"),
      Some(CmToMetres(f.alturaCm)),
      Some(f.peso),
      Listed(KeyEntries(sel)))
  }

  /** The form's sex and the backend's code agree: code 2 exactly when the
      form says "Feminino". */
  lemma FormSexCode(f: Form, sel: seq<string>)
    requires FourDigitYear(f.date)
    ensures SexCode(BuildPayload(f, sel).sexo) == 2 <==> f.sexo == "Feminino"
  {
    CapitalFGivesTwo();
    MaleExamples();
  }

  /** A key is listed in the payload exactly when it is selected. */
  lemma KeyEntriesListSelection(sel: seq<string>)
    ensures forall k :: Key(k) in KeyEntries(sel) <==> k in sel
  {
    var entries := KeyEntries(sel);
    forall k | k in sel
      ensures Key(k) in entries
    {
      var i :| 0 <= i < |sel| && sel[i] == k;
      assert entries[i] == Key(k);
    }
  }

  /** The row the backend builds from the form: the age in slot 0, and each
      comorbidity slot set exactly when its key is selected. */
  lemma FormRow(f: Form, sel: seq<string>)
    requires FourDigitYear(f.date)
    ensures var e := Encode(BuildPayload(f, sel));
            && e.row[0] == f.idade as real
            && (forall i :: 2 <= i < |FeatureNames| ==> e.row[i] == (if FeatureNames[i] in sel then 1.0 else 0.0))
            && (forall k :: k in e.selectedEn <==> k in FeatureNames && k in sel)
  {
    KeyEntriesListSelection(sel);
  }

  /** The keys the backend selects from the form: the selected keys that
      are columns. */
  lemma FormSelection(f: Form, sel: seq<string>)
    requires FourDigitYear(f.date)
    ensures forall k :: k in Encode(BuildPayload(f, sel)).selectedEn <==> k in FeatureNames && k in sel
  {
    KeyEntriesListSelection(sel);
  }

  /** The index the backend stores agrees with the form's: present exactly
      when the height is positive, and equal to the form's value whenever
      the form shows one. */
  lemma FormBmiAgrees(f: Form, sel: seq<string>)
    requires FourDigitYear(f.date)
    ensures var m := Encode(BuildPayload(f, sel)).meta;
            && (m.imc.Some? <==> f.alturaCm > 0.0)
            && (CalcBmi(f.peso, f.alturaCm).Some? ==> m.imc == CalcBmi(f.peso, f.alturaCm))
  {
  }

  /** The payload of a one-key selection is the one of an empty selection
      with that key listed. */
  lemma OneKeyPayload(f: Form, key: string)
    requires FourDigitYear(f.date)
    ensures BuildPayload(f, [key]) == BuildPayload(f, []).(comorbidades := Listed([Key(key)]))
  {
    assert KeyEntries([key]) == [Key(key)];
  }

  /** As written, the picker's "Câncer hepático" box sends a key the catalogue
      does not have: ticking it leaves the row as if nothing were ticked, and
      the hepatic cancer column at 0. */
  lemma HepaticCancerBoxIsLost(f: Form)
    requires FourDigitYear(f.date)
    ensures RenalAsWritten[5].1 == "Câncer hepático" && FeatureNames[30] == "hepatic cancer"
    ensures Encode(BuildPayload(f, [RenalAsWritten[5].0])).row == Encode(BuildPayload(f, [])).row
    ensures Encode(BuildPayload(f, [RenalAsWritten[5].0])).row[30] == 0.0
  {
    HepaticCancerSpellings();
    var key := RenalAsWritten[5].0;
    OneKeyPayload(f, key);
    UnknownKeyScenario(BuildPayload(f, []), key);
    EmptySelectionRow(f);
  }

  /** An empty selection sets no comorbidity column. */
  lemma EmptySelectionRow(f: Form)
    requires FourDigitYear(f.date)
    ensures forall i :: 2 <= i < |FeatureNames| ==> Encode(BuildPayload(f, [])).row[i] == 0.0
  {
    FormRow(f, []);
  }

  /** With the catalogue's spelling the same box sets the hepatic cancer
      column. */
  lemma HepaticCancerBoxIsKept(f: Form)
    requires FourDigitYear(f.date)
    ensures Renal[5].1 == "Câncer hepático"
    ensures Encode(BuildPayload(f, [Renal[5].0])).row[30] == 1.0
  {
    HepaticCancerSpellings();
    CatalogueShape();
    FormRow(f, [Renal[5].0]);
  }

  /** With the catalogue's spelling every key the picker offers is a
      comorbidity column. */
  lemma PickerKeyIsColumn(k: string)
    requires k in Keys(AllEntries(CategoriesFixed))
    ensures k in FeatureNames && k != "patient_age" && k != "patient_sex"
  {
    PickerKeysAreFeatures();
    var all := AllEntries(CategoriesFixed);
    var i :| 0 <= i < |Keys(all)| && Keys(all)[i] == k;
    EntryOfAll(CategoriesFixed, i);
  }

  /** With the catalogue's spelling every key the picker can select reaches
      the classifier: it is a comorbidity column and it is selected. */
  lemma PickedKeysAreSelected(f: Form, sel: seq<string>)
    requires FourDigitYear(f.date)
    requires forall k :: k in sel ==> k in Keys(AllEntries(CategoriesFixed))
    ensures forall k :: k in sel ==> k in Encode(BuildPayload(f, sel)).selectedEn
    ensures forall k :: k in sel ==> k != "patient_age" && k != "patient_sex"
  {
    FormSelection(f, sel);
    forall k | k in sel
      ensures k in FeatureNames && k != "patient_age" && k != "patient_sex"
    {
      PickerKeyIsColumn(k);
    }
  }

  /** The report of a consultation: the sex word from slot 1 of the row, and
      the Portuguese labels of the selected keys as the bullet list. */
  function ConsultationReport(p: Payload, h: real, w: real): (draws: seq<Draw>)
    ensures |draws| >= 14
  {
    var e := Encode(p);
    Render(e.row[1], LocalizeAll(e.selectedEn), EnToPt, h, w)
  }

  /** The bullets of the report are the selected keys' labels, in input
      order, even though the renderer looks each label up a second time. */
  lemma ReportListsSelectedLabels(p: Payload, h: real, w: real)
    ensures BulletTexts(ConsultationReport(p, h, w)) == LocalizeAll(Encode(p).selectedEn)
  {
    var e := Encode(p);
    var labels := LocalizeAll(e.selectedEn);
    RenderDrawsItemsInOrder(e.row[1], labels, EnToPt, h, w);
    assert TranslateAll(EnToPt, labels) == LocalizeAll(labels);
    LocalizeAllIdempotent(e.selectedEn);
  }

  /** The report's sex word is "Feminino" exactly when the payload's sex
      encodes to 2. */
  lemma ReportSexWord(p: Payload, h: real, w: real)
    ensures ConsultationReport(p, h, w)[5].text == SexField(if SexCode(p.sexo) == 2 then "Feminino" else "Masculino")
  {
    var e := Encode(p);
    SexLineOfReport(e.row[1], LocalizeAll(e.selectedEn), EnToPt, h, w);
  }

  /** A consultation whose only comorbidity is unknown gets the "none
      identified" line and no bullet. */
  lemma UnknownOnlyReportSaysNone(p: Payload, k: string, h: real, w: real)
    requires k !in FeatureNames
    ensures var q := p.(comorbidades := Listed([Key(k)]));
            Encode(q).selectedEn == [] && BulletTexts(ConsultationReport(q, h, w)) == []
  {
    var q := p.(comorbidades := Listed([Key(k)]));
    assert [Key(k)][1..] == [];
    assert Encode(q).selectedEn == [];
    NoneLineExactlyWhenEmpty(Encode(q).row[1], [], EnToPt, h, w);
  }
}
