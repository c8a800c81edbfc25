/** The request encoder (`build_X_from_input`): a loosely typed payload
    becomes the classifier's feature row, the consultation metadata, and the
    matched comorbidity keys together with their Portuguese labels. */
module Encoder {
  import opened Base
  import opened Text
  import opened Catalogue

  /** One item of the payload's comorbidity list: a string, or any other JSON
      value (a number, an object, ...), which never equals a catalogue key. */
  datatype Entry = Key(name: string) | NonText

  /** The `comorbidades` field of the payload. */
  datatype ComorbidityField =
    | Missing
      // absent, `null`, or any other falsy value
    | Listed(items: seq<Entry>)
      // a JSON array
    | Encoded(text: string, decoded: Option<seq<Entry>>)
      // a string; `decoded` is the array `json.loads(text)` yields, `None` when parsing fails

  /** The request body. A text field holds `str()` of whatever the client
      sent; `None` stands for an absent key. Numeric fields are already
      numbers. */
  datatype Payload = Payload(
    nome: Option<string>,
    data: Option<string>,
    idade: Option<real>,
    sexo: Option<string>,
    altura: Option<real>,   // metres
    peso: Option<real>,     // kilograms
    comorbidades: ComorbidityField)

  /** The metadata record handed to the report and the store. `imc` is the
      body-mass index, absent when the height is not positive. */
  datatype Metadata = Metadata(nome: string, dataConsulta: string, altura: real, peso: real, imc: Option<real>)

  /** What `build_X_from_input` returns, but for `selected_pt`, which is the
      pointwise `LocalizeAll` of `selectedEn` and is computed from it where
      it is needed. */
  datatype Encoding = Encoding(row: seq<real>, meta: Metadata, selectedEn: seq<string>)

  /** `float(x or 0)`: an absent number reads as zero. */
  function OrZero(x: Option<real>): (v: real)
    ensures x.Some? ==> v == x.value
    ensures x.None? ==> v == 0.0
  {
    match x
    case Some(v) => v
    case None => 0.0
  }

  function OrEmpty(x: Option<string>): string {
    match x
    case Some(v) => v
    case None => ""
  }

  /** The lower-cased spellings that mean "female". */
  const FemaleTokens: seq<string> := ["f", "feminino", "female"]

  /** Sex code: 2 for a female token (after `strip` and `lower`), 1 for
      anything else; an absent field reads as "M". */
  function SexCode(sexo: Option<string>): (code: int)
    ensures code == 1 || code == 2
  {
    var raw := match sexo case Some(s) => s case None => "M";
    if Lower(Strip(raw, IsSpace)) in FemaleTokens then 2 else 1
  }

  /** The list the encoder iterates: `payload.get('comorbidades') or []`,
      parsed with `json.loads` when it is a string, and empty when that
      parse fails. */
  function Entries(f: ComorbidityField): (es: seq<Entry>)
    ensures forall e :: e in es ==>
              (f.Listed? && e in f.items) || (f.Encoded? && f.decoded.Some? && e in f.decoded.value)
    ensures f.Listed? ==> es == f.items
    ensures f.Encoded? && f.text != "" && f.decoded.Some? ==> es == f.decoded.value
    ensures f.Missing? || (f.Encoded? && (f.text == "" || f.decoded.None?)) ==> es == []
  {
    match f
    case Missing => []
    case Listed(items) => items
    case Encoded(text, decoded) =>
      if text == "" then []
      else match decoded
           case Some(items) => items
           case None => []
  }

  /** `selected_en`: the entries that are keys of `known`, in input order,
      repetitions included. */
  function SelectKnown(known: seq<string>, entries: seq<Entry>): (selected: seq<string>)
    ensures |selected| <= |entries|
    ensures forall k :: k in selected <==> k in known && Key(k) in entries
  {
    if entries == [] then []
    else
      var rest := SelectKnown(known, entries[1..]);
      assert forall e :: e in entries <==> e == entries[0] || e in entries[1..];
      match entries[0]
      case Key(k) => if k in known then [k] + rest else rest
      case NonText => rest
  }

  /** What the classifier reads in the column named `feat`: the age, the sex
      code, or a 0/1 flag for membership in the selected keys. */
  function SlotValue(feat: string, age: real, sex: int, selected: seq<string>): (v: real)
    ensures feat == "patient_age" ==> v == age
    ensures feat == "patient_sex" ==> v == sex as real
    ensures feat != "patient_age" && feat != "patient_sex" ==>
              (v == 1.0 <==> feat in selected) && (v == 0.0 <==> feat !in selected)
  {
    if feat == "patient_age" then age
    else if feat == "patient_sex" then sex as real
    else if feat in selected then 1.0 else 0.0
  }

  /** The columns named by `names`, each read through `SlotValue`. */
  function SlotRow(names: seq<string>, age: real, sex: int, selected: seq<string>): (row: seq<real>)
    ensures |row| == |names|
  {
    seq(|names|, i requires 0 <= i < |names| => SlotValue(names[i], age, sex, selected))
  }

  /** The feature row in catalogue order. */
  function Row(age: real, sex: int, selected: seq<string>): (row: seq<real>)
    ensures |row| == |FeatureNames|
    ensures row[0] == age && row[1] == sex as real
    ensures forall i :: 2 <= i < |FeatureNames| ==>
              row[i] == (if FeatureNames[i] in selected then 1.0 else 0.0)
  {
    CatalogueShape();
    SlotRow(FeatureNames, age, sex, selected)
  }

  /** The row as the source builds it over a column list: a dictionary
      seeded with age and sex, filled column by column under the
      `if feat not in row` guard, then read back in column order by the
      one-row data frame. */
  method BuildRow(names: seq<string>, age: real, sex: int, selected: seq<string>) returns (row: seq<real>)
    ensures |row| == |names|
    ensures forall i :: 0 <= i < |names| ==> row[i] == SlotValue(names[i], age, sex, selected)
  {
    var slots: map<string, real> := map["patient_age" := age, "patient_sex" := sex as real];
    var i := 0;
    while i < |names|
      invariant 0 <= i <= |names|
      invariant "patient_age" in slots && "patient_sex" in slots
      invariant forall k :: k in slots ==> slots[k] == SlotValue(k, age, sex, selected)
      invariant forall j :: 0 <= j < i ==> names[j] in slots
    {
      var feat := names[i];
      if feat !in slots {
        slots := slots[feat := if feat in selected then 1.0 else 0.0];
      }
      i := i + 1;
    }
    row := seq(|names|, j requires 0 <= j < |names| => slots[names[j]]);
  }

  /** Over the catalogue the dictionary construction gives exactly `Row`. */
  method BuildCatalogueRow(age: real, sex: int, selected: seq<string>) returns (row: seq<real>)
    ensures row == Row(age, sex, selected)
  {
    row := BuildRow(FeatureNames, age, sex, selected);
  }

  /** Weight over height squared, before the source rounds it to one decimal. */
  function BodyMassIndex(peso: real, altura: real): (imc: real)
    requires altura > 0.0
    ensures imc * (altura * altura) == peso
  {
    assert altura * altura > 0.0;
    peso / (altura * altura)
  }

  /** The metadata record: name and visit date default to "", height and
      weight to zero, and the index is present exactly when the height is
      positive. */
  function MetadataOf(p: Payload): (m: Metadata)
    ensures m.altura == OrZero(p.altura) && m.peso == OrZero(p.peso)
    ensures m.imc.Some? <==> m.altura > 0.0
    ensures m.imc.Some? ==> m.imc.value * (m.altura * m.altura) == m.peso
  {
    var altura := OrZero(p.altura);
    var peso := OrZero(p.peso);
    var imc := if altura > 0.0 then Some(BodyMassIndex(peso, altura)) else None;
    Metadata(OrEmpty(p.nome), OrEmpty(p.data), altura, peso, imc)
  }

  /** `build_X_from_input`. */
  function Encode(p: Payload): (e: Encoding)
    ensures |e.row| == |FeatureNames|
    ensures e.row[0] == OrZero(p.idade) && e.row[1] == SexCode(p.sexo) as real
    ensures forall i :: 2 <= i < |FeatureNames| ==>
              e.row[i] == (if Key(FeatureNames[i]) in Entries(p.comorbidades) then 1.0 else 0.0)
    ensures forall k :: k in e.selectedEn <==> k in FeatureNames && Key(k) in Entries(p.comorbidades)
    ensures e.meta == MetadataOf(p)
  {
    var selectedEn := SelectKnown(FeatureNames, Entries(p.comorbidades));
    assert forall i :: 0 <= i < |FeatureNames| ==>
             (FeatureNames[i] in selectedEn <==> Key(FeatureNames[i]) in Entries(p.comorbidades));
    Encoding(
      Row(OrZero(p.idade), SexCode(p.sexo), selectedEn),
      MetadataOf(p),
      selectedEn)
  }

  /** `selected_en` is built by appending in input order, so it splits along
      any split of the input. */
  lemma {:induction false} SelectKnownAppend(known: seq<string>, a: seq<Entry>, b: seq<Entry>)
    ensures SelectKnown(known, a + b) == SelectKnown(known, a) + SelectKnown(known, b)
    decreases |a|
  {
    if a == [] {
      assert a + b == b;
    } else {
      assert (a + b)[0] == a[0];
      assert (a + b)[1..] == a[1..] + b;
      SelectKnownAppend(known, a[1..], b);
    }
  }

  /** Entries none of which is a known key select nothing. */
  lemma {:induction false} SelectNothingKnown(known: seq<string>, entries: seq<Entry>)
    requires forall i :: 0 <= i < |entries| ==> entries[i].NonText? || entries[i].name !in known
    ensures SelectKnown(known, entries) == []
    decreases |entries|
  {
    if entries != [] {
      SelectNothingKnown(known, entries[1..]);
    }
  }

  /** Entries that are not catalogue keys change nothing: neither the row,
      nor the selections, nor the metadata. */
  lemma UnknownEntriesIgnored(p: Payload, extra: seq<Entry>)
    requires forall i :: 0 <= i < |extra| ==> extra[i].NonText? || extra[i].name !in FeatureNames
    ensures Encode(p.(comorbidades := Listed(Entries(p.comorbidades) + extra))) == Encode(p)
  {
    var q := p.(comorbidades := Listed(Entries(p.comorbidades) + extra));
    SelectKnownAppend(FeatureNames, Entries(p.comorbidades), extra);
    SelectNothingKnown(FeatureNames, extra);
    assert Entries(q.comorbidades) == Entries(p.comorbidades) + extra;
    assert SelectKnown(FeatureNames, Entries(q.comorbidades)) == SelectKnown(FeatureNames, Entries(p.comorbidades));
  }

  /** A row reads the selection only through membership. */
  lemma SlotRowReadsMembership(names: seq<string>, age: real, sex: int, s1: seq<string>, s2: seq<string>)
    requires forall k :: k in s1 <==> k in s2
    ensures SlotRow(names, age, sex, s1) == SlotRow(names, age, sex, s2)
  {
  }

  /** The row depends only on which entries occur, not on their order or
      repetition, and so does the set of selected keys. */
  lemma RowDependsOnlyOnEntrySet(p: Payload, q: Payload)
    requires p.idade == q.idade && p.sexo == q.sexo
    requires forall e :: e in Entries(p.comorbidades) <==> e in Entries(q.comorbidades)
    ensures Encode(p).row == Encode(q).row
    ensures forall k :: k in Encode(p).selectedEn <==> k in Encode(q).selectedEn
  {
    var sp := SelectKnown(FeatureNames, Entries(p.comorbidades));
    var sq := SelectKnown(FeatureNames, Entries(q.comorbidades));
    assert forall k :: k in sp <==> k in sq;
    SlotRowReadsMembership(FeatureNames, OrZero(p.idade), SexCode(p.sexo), sp, sq);
  }

  /** A comorbidity string that does not parse behaves exactly like an empty
      list: no flags set, nothing selected. */
  lemma UnparseableIsEmpty(p: Payload, text: string)
    ensures Encode(p.(comorbidades := Encoded(text, None))) == Encode(p.(comorbidades := Listed([])))
    ensures Encode(p.(comorbidades := Encoded(text, None))).selectedEn == []
  {
    assert Entries(Encoded(text, None)) == [] == Entries(Listed([]));
  }

  /** A female token, whatever its letter case and however much whitespace
      surrounds it, gives code 2. */
  lemma SexCodeOfPaddedToken(s: string, a: nat, b: nat)
    requires a <= b <= |s| && All(s[..a], IsSpace) && All(s[b..], IsSpace)
    requires Lower(s[a..b]) in FemaleTokens
    ensures SexCode(Some(s)) == 2
  {
    FemaleTokenEnds(s[a..b]);
    StripSlice(s, a, b, IsSpace);
  }

  /** A female token, in any letter case, starts and ends with a letter, so
      `strip` leaves it whole. */
  lemma FemaleTokenEnds(mid: string)
    requires Lower(mid) in FemaleTokens
    ensures mid != [] && !IsSpace(mid[0]) && !IsSpace(mid[|mid| - 1])
  {
    var t := Lower(mid);
    assert t == "f" || t == "feminino" || t == "female";
    var last := mid[|mid| - 1];
    assert LowerChar(mid[0]) == 'f';
    assert LowerChar(last) == 'f' || LowerChar(last) == 'o' || LowerChar(last) == 'e';
    LetterIsNotSpace(mid[0]);
    LetterIsNotSpace(last);
  }

  /** Code 2 only comes from a female token with whitespace around it. */
  lemma PaddedTokenOfSexCode(s: string)
    requires SexCode(Some(s)) == 2
    ensures var a := LeadingCount(s, IsSpace);
            var b := a + |Strip(s, IsSpace)|;
            a <= b <= |s| && All(s[..a], IsSpace) && All(s[b..], IsSpace) && Lower(s[a..b]) in FemaleTokens
  {
    StripSpan(s, IsSpace);
  }

  /** The sex code is 2 exactly when the field, stripped of surrounding
      whitespace and lower-cased, is one of the female tokens; anything
      else gives 1. */
  lemma SexCodeIsFemaleToken(s: string)
    ensures SexCode(Some(s)) == 2 <==>
              exists a, b :: 0 <= a <= b <= |s| && All(s[..a], IsSpace) && All(s[b..], IsSpace)
                             && Lower(s[a..b]) in FemaleTokens
  {
    if SexCode(Some(s)) == 2 {
      PaddedTokenOfSexCode(s);
    }
    if exists a, b :: 0 <= a <= b <= |s| && All(s[..a], IsSpace) && All(s[b..], IsSpace)
                      && Lower(s[a..b]) in FemaleTokens {
      var a, b :| 0 <= a <= b <= |s| && All(s[..a], IsSpace) && All(s[b..], IsSpace)
                  && Lower(s[a..b]) in FemaleTokens;
      SexCodeOfPaddedToken(s, a, b);
    }
  }

  /** "M" has no whitespace to strip. */
  lemma StripOfDefault()
    ensures Strip("M", IsSpace) == "M"
  {
    StripPadded([], "M", [], IsSpace);
    assert [] + "M" + [] == "M";
  }

  /** The default token "M" normalises to "m". */
  lemma NormalisedDefault()
    ensures Lower(Strip("M", IsSpace)) == "m"
  {
    StripOfDefault();
    LowerOfM();
  }

  lemma LowerOfM()
    ensures Lower("M") == "m"
  {
    assert Lower("M")[0] == 'm';
  }

  /** An absent field reads as "M" and gives code 1. */
  lemma SexCodeOfAbsentField()
    ensures SexCode(None) == 1
  {
    NormalisedDefault();
    assert "m" !in FemaleTokens by {
      assert |"m"| == 1 && "m"[0] != "f"[0] && |"feminino"| != 1 && |"female"| != 1;
    }
  }

  /** A female token with no surrounding whitespace gives code 2. */
  lemma SexCodeOfBareToken(t: string)
    requires Lower(t) in FemaleTokens
    ensures SexCode(Some(t)) == 2
  {
    assert t[..0] == [] && t[0..|t|] == t && t[|t|..] == [];
    SexCodeOfPaddedToken(t, 0, |t|);
  }

  /** The tokens are written in lower case already. */
  lemma TokensAreLowerCase()
    ensures forall i :: 0 <= i < |FemaleTokens| ==> Lower(FemaleTokens[i]) == FemaleTokens[i]
  {
    assert Lower("f") == "f";
    assert Lower("feminino") == "feminino";
    assert Lower("female") == "female";
  }

  /** Each female token, written as is, gives code 2. */
  lemma FemaleTokensGiveTwo()
    ensures forall t :: t in FemaleTokens ==> SexCode(Some(t)) == 2
  {
    TokensAreLowerCase();
    forall t | t in FemaleTokens
      ensures SexCode(Some(t)) == 2
    {
      SexCodeOfBareToken(t);
    }
  }

  /** The capital "F" the form sends gives code 2. */
  lemma CapitalFGivesTwo()
    ensures SexCode(Some("F")) == 2
  {
    assert Lower("F") == "f" by { assert LowerChar('F') == 'f'; }
    SexCodeOfBareToken("F");
  }

  /** "M", and an absent field, give code 1. */
  lemma MaleExamples()
    ensures SexCode(Some("M")) == 1 && SexCode(None) == 1
  {
    SexCodeOfAbsentField();
  }

  /** Listing "SAH" and "obesity" sets exactly their two flags and selects
      both, in input order. */
  lemma SahAndObesityFlags(p: Payload)
    requires p.comorbidades == Listed([Key("SAH"), Key("obesity")])
    ensures var e := Encode(p);
            && FeatureNames[2] == "SAH" && e.row[2] == 1.0
            && FeatureNames[51] == "obesity" && e.row[51] == 1.0
            && (forall i :: 2 <= i < |FeatureNames| && FeatureNames[i] != "SAH" && FeatureNames[i] != "obesity" ==>
                  e.row[i] == 0.0)
            && e.selectedEn == ["SAH", "obesity"]
  {
    SahAndObesityColumns();
    SelectTwoKnown(FeatureNames, "SAH", "obesity");
  }

  /** "SAH" and "obesity" are catalogue columns 2 and 51. */
  lemma SahAndObesityColumns()
    ensures |FeatureNames| == 73
    ensures FeatureNames[2] == "SAH" && FeatureNames[51] == "obesity"
    ensures "SAH" in FeatureNames && "obesity" in FeatureNames
  {
    CatalogueShape();
    assert FeatureNames[2] == FeatureNames1[2];
    assert FeatureNames == (FeatureNames1 + FeatureNames2) + (FeatureNames3 + FeatureNames4);
    assert FeatureNames[51] == (FeatureNames3 + FeatureNames4)[13];
  }

  /** Two known keys are both selected, in input order. */
  lemma SelectTwoKnown(known: seq<string>, a: string, b: string)
    requires a in known && b in known
    ensures SelectKnown(known, [Key(a), Key(b)]) == [a, b]
  {
    assert [Key(a), Key(b)][1..] == [Key(b)];
    assert [Key(b)][1..] == [];
  }

  /** The end-to-end payload for a 50-year-old woman with those two keys:
      age in slot 0, code 2 in slot 1, and the two flags above. */
  lemma TwoComorbidityScenario()
    ensures var e := Encode(Payload(Some("Maria"), None, Some(50.0), Some("F"), Some(1.65), Some(80.0),
                                    Listed([Key("SAH"), Key("obesity")])));
            && e.row[0] == 50.0 && e.row[1] == 2.0
            && e.row[2] == 1.0 && e.row[51] == 1.0
            && (forall i :: 2 <= i < |FeatureNames| && FeatureNames[i] != "SAH" && FeatureNames[i] != "obesity" ==>
                  e.row[i] == 0.0)
            && e.selectedEn == ["SAH", "obesity"]
  {
    var p := Payload(Some("Maria"), None, Some(50.0), Some("F"), Some(1.65), Some(80.0),
                     Listed([Key("SAH"), Key("obesity")]));
    CapitalFGivesTwo();
    SahAndObesityFlags(p);
  }

  /** A payload whose only comorbidity is an unknown key encodes exactly like
      one with an empty list. */
  lemma UnknownKeyScenario(p: Payload, k: string)
    requires k !in FeatureNames
    ensures Encode(p.(comorbidades := Listed([Key(k)]))) == Encode(p.(comorbidades := Listed([])))
  {
    var empty := p.(comorbidades := Listed([]));
    assert Entries(empty.comorbidades) + [Key(k)] == [Key(k)];
    UnknownEntriesIgnored(empty, [Key(k)]);
  }
}
