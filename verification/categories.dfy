/** The categories of the intake form's comorbidity picker (`CATEGORIES`):
    an ordered list of named groups, each an ordered list of
    (catalogue key, display label) pairs, in the source's order. */
module Categories {
  import opened Base
  import opened Catalogue

  type Group = seq<(string, string)>

  /** "Cardiovasculares" */
  const Cardiovascular: Group := [
    ("SAH", "Hipertensão arterial sistêmica (HAS)"),
    ("acute myocardium infarct", "Infarto agudo do miocárdio"),
    ("cardiac insufficiency", "Insuficiência cardíaca"),
    ("cardiopathy", "Cardiopatia"),
    ("arrhythmia", "Arritmia"),
    ("pulmonary embolism", "Embolia pulmonar"),
    ("valvulopathy", "Valvulopatia"),
    ("aneurysm", "Aneurisma"),
    ("catheterism", "Cateterismo") ]

  /** "Neurológicas" */
  const Neurological: Group := [
    ("AVC", "Acidente cerebrovascular (AVC)"),
    ("brain tumor", "Tumor cerebral"),
    ("migraine", "Enxaqueca"),
    ("intracranial hypertension", "Hipertensão intracraniana"),
    ("meningioma", "Meningioma"),
    ("hydrocephalus", "Hidrocefalia"),
    ("devic", "Síndrome de Devic"),
    ("cerebral palsy", "Paralisia cerebral"),
    ("esclerose_multipla", "Esclerose múltipla") ]

  /** "Respiratórias / Pulmonares" */
  const Respiratory: Group := [
    ("asthma", "Asma") ]

  /** "Endócrinas / Metabólicas" */
  const Endocrine: Group := [
    ("hipotireoidismo", "Hipotireoidismo"),
    ("hipertireoidismo", "Hipertireoidismo"),
    ("hypercholesterolemia", "Hipercolesterolemia"),
    ("hypertriglyceridemia", "Hipertrigliceridemia"),
    ("hipocolesterolemia", "Hipocolesterolemia"),
    ("hypophysis adenoma", "Adenoma da hipófise"),
    ("obesity", "Obesidade") ]

  /** "Renais / Hepáticas" as the form writes it: its last key spells the catalogue's
      "hepatic cancer" with an underscore. */
  const RenalAsWritten: Group := [
    ("chronic kidney disease", "Doença renal crônica"),
    ("kidney transplant", "Transplante renal"),
    ("dialysis", "Diálise"),
    ("cirrhosis", "Cirrose"),
    ("hepatic transplant", "Transplante hepático"),
    ("hepatic_cancer", "Câncer hepático") ]

  /** "Renais / Hepáticas" with the catalogue's spelling of the hepatic cancer key. */
  const Renal: Group := [
    ("chronic kidney disease", "Doença renal crônica"),
    ("kidney transplant", "Transplante renal"),
    ("dialysis", "Diálise"),
    ("cirrhosis", "Cirrose"),
    ("hepatic transplant", "Transplante hepático"),
    ("hepatic cancer", "Câncer hepático") ]

  /** "Hematológicas / Imunológicas" */
  const Haematological: Group := [
    ("anemia", "Anemia"),
    ("sickle cell anemia", "Anemia falciforme"),
    ("leucemia", "Leucemia"),
    ("lymphoma", "Linfoma"),
    ("sjogren", "Síndrome de Sjögren"),
    ("sarcoidosis", "Sarcoidose"),
    ("dyslipidemia", "Dislipidemia") ]

  /** "Autoimunes / Inflamatórias" */
  const Autoimmune: Group := [
    ("behcet", "Doença de Behçet"),
    ("fibromyalgia", "Fibromialgia"),
    ("psoriasis", "Psoríase"),
    ("vasculitis", "Vasculite"),
    ("artrite", "Artrite"),
    ("arthrosis", "Artrose") ]

  /** "Oncológicas" */
  const Oncological: Group := [
    ("breast cancer", "Câncer de mama"),
    ("lung cancer", "Câncer de pulmão"),
    ("intestinal cancer", "Câncer intestinal") ]

  /** "Genéticas / Congênitas" */
  const Genetic: Group := [
    ("down syndrome", "Síndrome de Down"),
    ("albinism", "Albinismo"),
    ("mccune albright", "Síndrome de McCune-Albright"),
    ("neurofibromatosis", "Neurofibromatose"),
    ("policitemia vera", "Policitemia vera") ]

  /** "Outras" */
  const Other: Group := [
    ("osteoporosis", "Osteoporose"),
    ("prolactinoma", "Prolactinoma"),
    ("prostatic hyperplasia", "Hiperplasia prostática"),
    ("vitiligo", "Vitiligo"),
    ("tabagism", "Tabagismo"),
    ("human immunodeficiency virus", "Vírus da imunodeficiência humana (HIV)"),
    ("hepatitis c", "Hepatite C"),
    ("trombose_venosa_profunda", "Trombose venosa profunda"),
    ("doenca_chagas", "Doença de Chagas"),
    ("cloroquina", "Cloroquina") ]

  /** The picker as the form defines it. */
  const CategoriesAsWritten: seq<(string, Group)> := [
    ("Cardiovasculares", Cardiovascular),
    ("Neurológicas", Neurological),
    ("Respiratórias / Pulmonares", Respiratory),
    ("Endócrinas / Metabólicas", Endocrine),
    ("Renais / Hepáticas", RenalAsWritten),
    ("Hematológicas / Imunológicas", Haematological),
    ("Autoimunes / Inflamatórias", Autoimmune),
    ("Oncológicas", Oncological),
    ("Genéticas / Congênitas", Genetic),
    ("Outras", Other) ]

  /** The picker with the hepatic cancer key spelt as in the catalogue. */
  const CategoriesFixed: seq<(string, Group)> := [
    ("Cardiovasculares", Cardiovascular),
    ("Neurológicas", Neurological),
    ("Respiratórias / Pulmonares", Respiratory),
    ("Endócrinas / Metabólicas", Endocrine),
    ("Renais / Hepáticas", Renal),
    ("Hematológicas / Imunológicas", Haematological),
    ("Autoimunes / Inflamatórias", Autoimmune),
    ("Oncológicas", Oncological),
    ("Genéticas / Congênitas", Genetic),
    ("Outras", Other) ]

  lemma CardiovascularKeysAreFeatures()
    ensures forall j :: 0 <= j < |Cardiovascular| ==>
              Cardiovascular[j].0 in FeatureNames && Cardiovascular[j].0 != "patient_age" && Cardiovascular[j].0 != "patient_sex"
  {
    assert Cardiovascular[0].0 == FeatureNames1[2];
    assert Cardiovascular[1].0 == FeatureNames1[3];
    assert Cardiovascular[2].0 == FeatureNames1[16];
    assert Cardiovascular[3].0 == FeatureNames1[17];
    assert Cardiovascular[4].0 == FeatureNames1[10];
    assert Cardiovascular[5].0 == FeatureNames4[0];
    assert Cardiovascular[6].0 == FeatureNames4[5];
    assert Cardiovascular[7].0 == FeatureNames1[8];
    assert Cardiovascular[8].0 == FeatureNames1[18];
  }

  lemma NeurologicalKeysAreFeatures()
    ensures forall j :: 0 <= j < |Neurological| ==>
              Neurological[j].0 in FeatureNames && Neurological[j].0 != "patient_age" && Neurological[j].0 != "patient_sex"
  {
    assert Neurological[0].0 == FeatureNames4[8];
    assert Neurological[1].0 == FeatureNames1[14];
    assert Neurological[2].0 == FeatureNames3[10];
    assert Neurological[3].0 == FeatureNames3[3];
    assert Neurological[4].0 == FeatureNames3[9];
    assert Neurological[5].0 == FeatureNames2[17];
    assert Neurological[6].0 == FeatureNames2[5];
    assert Neurological[7].0 == FeatureNames2[0];
    assert Neurological[8].0 == FeatureNames4[14];
  }

  lemma RespiratoryKeysAreFeatures()
    ensures forall j :: 0 <= j < |Respiratory| ==>
              Respiratory[j].0 in FeatureNames && Respiratory[j].0 != "patient_age" && Respiratory[j].0 != "patient_sex"
  {
    assert Respiratory[0].0 == FeatureNames1[12];
  }

  lemma EndocrineKeysAreFeatures()
    ensures forall j :: 0 <= j < |Endocrine| ==>
              Endocrine[j].0 in FeatureNames && Endocrine[j].0 != "patient_age" && Endocrine[j].0 != "patient_sex"
  {
    assert Endocrine[0].0 == FeatureNames4[12];
    assert Endocrine[1].0 == FeatureNames4[13];
    assert Endocrine[2].0 == FeatureNames2[18];
    assert Endocrine[3].0 == FeatureNames3[0];
    assert Endocrine[4].0 == FeatureNames2[15];
    assert Endocrine[5].0 == FeatureNames3[1];
    assert Endocrine[6].0 == FeatureNames3[13];
  }

  lemma RenalKeysAreFeatures()
    ensures forall j :: 0 <= j < |Renal| ==>
              Renal[j].0 in FeatureNames && Renal[j].0 != "patient_age" && Renal[j].0 != "patient_sex"
  {
    assert Renal[0].0 == FeatureNames2[2];
    assert Renal[1].0 == FeatureNames3[4];
    assert Renal[2].0 == FeatureNames2[6];
    assert Renal[3].0 == FeatureNames2[3];
    assert Renal[4].0 == FeatureNames2[12];
    assert Renal[5].0 == FeatureNames2[11];
  }

  lemma HaematologicalKeysAreFeatures()
    ensures forall j :: 0 <= j < |Haematological| ==>
              Haematological[j].0 in FeatureNames && Haematological[j].0 != "patient_age" && Haematological[j].0 != "patient_sex"
  {
    assert Haematological[0].0 == FeatureNames1[7];
    assert Haematological[1].0 == FeatureNames4[2];
    assert Haematological[2].0 == FeatureNames3[5];
    assert Haematological[3].0 == FeatureNames3[7];
    assert Haematological[4].0 == FeatureNames4[3];
    assert Haematological[5].0 == FeatureNames4[1];
    assert Haematological[6].0 == FeatureNames2[8];
  }

  lemma AutoimmuneKeysAreFeatures()
    ensures forall j :: 0 <= j < |Autoimmune| ==>
              Autoimmune[j].0 in FeatureNames && Autoimmune[j].0 != "patient_age" && Autoimmune[j].0 != "patient_sex"
  {
    assert Autoimmune[0].0 == FeatureNames1[13];
    assert Autoimmune[1].0 == FeatureNames2[9];
    assert Autoimmune[2].0 == FeatureNames3[18];
    assert Autoimmune[3].0 == FeatureNames4[6];
    assert Autoimmune[4].0 == FeatureNames4[15];
    assert Autoimmune[5].0 == FeatureNames1[11];
  }

  lemma OncologicalKeysAreFeatures()
    ensures forall j :: 0 <= j < |Oncological| ==>
              Oncological[j].0 in FeatureNames && Oncological[j].0 != "patient_age" && Oncological[j].0 != "patient_sex"
  {
    assert Oncological[0].0 == FeatureNames1[15];
    assert Oncological[1].0 == FeatureNames3[6];
    assert Oncological[2].0 == FeatureNames3[2];
  }

  lemma GeneticKeysAreFeatures()
    ensures forall j :: 0 <= j < |Genetic| ==>
              Genetic[j].0 in FeatureNames && Genetic[j].0 != "patient_age" && Genetic[j].0 != "patient_sex"
  {
    assert Genetic[0].0 == FeatureNames2[7];
    assert Genetic[1].0 == FeatureNames1[5];
    assert Genetic[2].0 == FeatureNames3[8];
    assert Genetic[3].0 == FeatureNames3[12];
    assert Genetic[4].0 == FeatureNames3[15];
  }

  lemma OtherKeysAreFeatures()
    ensures forall j :: 0 <= j < |Other| ==>
              Other[j].0 in FeatureNames && Other[j].0 != "patient_age" && Other[j].0 != "patient_sex"
  {
    assert Other[0].0 == FeatureNames3[14];
    assert Other[1].0 == FeatureNames3[16];
    assert Other[2].0 == FeatureNames3[17];
    assert Other[3].0 == FeatureNames4[7];
    assert Other[4].0 == FeatureNames4[4];
    assert Other[5].0 == FeatureNames2[16];
    assert Other[6].0 == FeatureNames2[13];
    assert Other[7].0 == FeatureNames4[10];
    assert Other[8].0 == FeatureNames4[9];
    assert Other[9].0 == FeatureNames4[11];
  }

  /** With the catalogue spelling, every key the picker offers is a
      comorbidity column of the feature row. */
  lemma PickerKeysAreFeatures()
    ensures forall c, j :: 0 <= c < |CategoriesFixed| && 0 <= j < |CategoriesFixed[c].1| ==>
              var k := CategoriesFixed[c].1[j].0;
              k in FeatureNames && k != "patient_age" && k != "patient_sex"
  {
    CardiovascularKeysAreFeatures();
    NeurologicalKeysAreFeatures();
    RespiratoryKeysAreFeatures();
    EndocrineKeysAreFeatures();
    RenalKeysAreFeatures();
    HaematologicalKeysAreFeatures();
    AutoimmuneKeysAreFeatures();
    OncologicalKeysAreFeatures();
    GeneticKeysAreFeatures();
    OtherKeysAreFeatures();
  }

  /** The underscore spelling is not a column; the catalogue's spelling is. */
  lemma HepaticCancerSpellings()
    ensures RenalAsWritten[5].0 == "hepatic_cancer" && Renal[5].0 == "hepatic cancer"
    ensures "hepatic_cancer" !in FeatureNames && "hepatic cancer" in FeatureNames
    ensures FeatureNames[30] == "hepatic cancer"
  {
    assert forall i :: 0 <= i < |FeatureNames1| ==> FeatureNames1[i] != "hepatic_cancer";
    assert forall i :: 0 <= i < |FeatureNames2| ==> FeatureNames2[i] != "hepatic_cancer";
    assert forall i :: 0 <= i < |FeatureNames3| ==> FeatureNames3[i] != "hepatic_cancer";
    assert forall i :: 0 <= i < |FeatureNames4| ==> FeatureNames4[i] != "hepatic_cancer";
    assert "hepatic cancer" == FeatureNames2[11];
    assert FeatureNames[30] == (FeatureNames1 + FeatureNames2)[30];
  }
}
