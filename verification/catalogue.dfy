/** The feature catalogue the classifier was trained on (`FEATURE_NAMES`)
    and the Portuguese display labels of its keys (`EN_TO_PT`).

    Both literals are written as concatenations of four displays; this is
    only so that the verifier can index them. The values are the source's,
    in the source's order. */
module Catalogue {
  import opened Base

  /** The columns of the feature row, in the order the classifier expects. */
  const FeatureNames: seq<string> := FeatureNames1 + FeatureNames2 + FeatureNames3 + FeatureNames4

  const FeatureNames1: seq<string> := [
    "patient_age", "patient_sex", "SAH", "acute myocardium infarct", "adrenal hypoplasia",
    "albinism", "alzheimer", "anemia", "aneurysm", "ankylosing spondylitis", "arrhythmia",
    "arthrosis", "asthma", "behcet", "brain tumor", "breast cancer", "cardiac insufficiency",
    "cardiopathy", "catheterism"
  ]

  const FeatureNames2: seq<string> := [
    "cerebral palsy", "chron disease", "chronic kidney disease", "cirrhosis", "cone dystrophy",
    "devic", "dialysis", "down syndrome", "dyslipidemia", "fibromyalgia", "hashimoto disease",
    "hepatic cancer", "hepatic transplant", "hepatitis c", "herpetic encephalitis",
    "hipocolesterolemia", "human immunodeficiency virus", "hydrocephalus",
    "hypercholesterolemia"
  ]

  const FeatureNames3: seq<string> := [
    "hypertriglyceridemia", "hypophysis adenoma", "intestinal cancer",
    "intracranial hypertension", "kidney transplant", "leucemia", "lung cancer", "lymphoma",
    "mccune albright", "meningioma", "migraine", "muscular dystrophy", "neurofibromatosis",
    "obesity", "osteoporosis", "policitemia vera", "prolactinoma", "prostatic hyperplasia",
    "psoriasis"
  ]

  const FeatureNames4: seq<string> := [
    "pulmonary embolism", "sarcoidosis", "sickle cell anemia", "sjogren", "tabagism",
    "valvulopathy", "vasculitis", "vitiligo", "AVC", "doenca_chagas",
    "trombose_venosa_profunda", "cloroquina", "hipotireoidismo", "hipertireoidismo",
    "esclerose_multipla", "artrite"
  ]

  /** `EN_TO_PT`, as an ordered association list. */
  const EnToPt: seq<(string, string)> := EnToPt1 + EnToPt2 + EnToPt3 + EnToPt4

  const EnToPt1: seq<(string, string)> := [
    ("patient_age", "Idade"), ("patient_sex", "Sexo"),
    ("SAH", "Hipertensão Arterial Sistêmica (HAS)"),
    ("acute myocardium infarct", "Infarto Agudo do Miocárdio"),
    ("adrenal hypoplasia", "Hipoplasia Adrenal"), ("albinism", "Albinismo"),
    ("alzheimer", "Alzheimer"), ("anemia", "Anemia"), ("aneurysm", "Aneurisma"),
    ("ankylosing spondylitis", "Espondilite Anquilosante"), ("arrhythmia", "Arritmia"),
    ("arthrosis", "Artrose"), ("asthma", "Asma"), ("behcet", "Doença de Behçet"),
    ("brain tumor", "Tumor Cerebral"), ("breast cancer", "Câncer de Mama"),
    ("cardiac insufficiency", "Insuficiência Cardíaca"), ("cardiopathy", "Cardiopatia"),
    ("catheterism", "Cateterismo")
  ]

  const EnToPt2: seq<(string, string)> := [
    ("cerebral palsy", "Paralisia Cerebral"), ("chron disease", "Doença de Crohn"),
    ("chronic kidney disease", "Doença Renal Crônica"), ("cirrhosis", "Cirrose"),
    ("cone dystrophy", "Distrofia de Cones"), ("devic", "Síndrome de Devic"),
    ("dialysis", "Diálise"), ("down syndrome", "Síndrome de Down"),
    ("dyslipidemia", "Dislipidemia"), ("fibromyalgia", "Fibromialgia"),
    ("hashimoto disease", "Doença de Hashimoto"), ("hepatic cancer", "Câncer Hepático"),
    ("hepatic transplant", "Transplante Hepático"), ("hepatitis c", "Hepatite C"),
    ("herpetic encephalitis", "Encefalite Herpética"),
    ("hipocolesterolemia", "Hipocolesterolemia"), ("human immunodeficiency virus", "HIV"),
    ("hydrocephalus", "Hidrocefalia"), ("hypercholesterolemia", "Hipercolesterolemia")
  ]

  const EnToPt3: seq<(string, string)> := [
    ("hypertriglyceridemia", "Hipertrigliceridemia"),
    ("hypophysis adenoma", "Adenoma de Hipófise"), ("intestinal cancer", "Câncer Intestinal"),
    ("intracranial hypertension", "Hipertensão Intracraniana"),
    ("kidney transplant", "Transplante Renal"), ("leucemia", "Leucemia"),
    ("lung cancer", "Câncer de Pulmão"), ("lymphoma", "Linfoma"),
    ("mccune albright", "Síndrome de McCune-Albright"), ("meningioma", "Meningioma"),
    ("migraine", "Enxaqueca"), ("muscular dystrophy", "Distrofia Muscular"),
    ("neurofibromatosis", "Neurofibromatose"), ("obesity", "Obesidade"),
    ("osteoporosis", "Osteoporose"), ("policitemia vera", "Policitemia Vera"),
    ("prolactinoma", "Prolactinoma"), ("prostatic hyperplasia", "Hiperplasia Prostática"),
    ("psoriasis", "Psoríase")
  ]

  const EnToPt4: seq<(string, string)> := [
    ("pulmonary embolism", "Embolia Pulmonar"), ("sarcoidosis", "Sarcoidose"),
    ("sickle cell anemia", "Anemia Falciforme"), ("sjogren", "Síndrome de Sjögren"),
    ("tabagism", "Tabagismo"), ("valvulopathy", "Valvulopatia"), ("vasculitis", "Vasculite"),
    ("vitiligo", "Vitiligo"), ("AVC", "Acidente Vascular Cerebral (AVC)"),
    ("doenca_chagas", "Doença de Chagas"),
    ("trombose_venosa_profunda", "Trombose Venosa Profunda"),
    ("cloroquina", "Uso de Cloroquina"), ("hipotireoidismo", "Hipotireoidismo"),
    ("hipertireoidismo", "Hipertireoidismo"), ("esclerose_multipla", "Esclerose Múltipla"),
    ("artrite", "Artrite")
  ]

  /** A label table: pairs of key and label, looked up by first match. */
  type Table = seq<(string, string)>

  /** `table.get(k, k)`: the label of `k`, or `k` itself when the table has
      no entry for it. */
  function Translate(table: Table, k: string): (shown: string)
    ensures (forall i :: 0 <= i < |table| ==> table[i].0 != k) ==> shown == k
    ensures (exists i :: 0 <= i < |table| && table[i].0 == k) ==>
              exists i :: 0 <= i < |table| && table[i] == (k, shown)
  {
    match Lookup(table, k)
    case Some(found) => found
    case None => k
  }

  /** Pointwise `Translate`. */
  function TranslateAll(table: Table, ks: seq<string>): (labels: seq<string>)
    ensures |labels| == |ks|
    ensures forall i :: 0 <= i < |ks| ==> labels[i] == Translate(table, ks[i])
  {
    seq(|ks|, i requires 0 <= i < |ks| => Translate(table, ks[i]))
  }

  lemma TranslateAllCons(table: Table, k: string, ks: seq<string>)
    ensures TranslateAll(table, [k] + ks) == [Translate(table, k)] + TranslateAll(table, ks)
  {
    assert forall i :: 1 <= i < |ks| + 1 ==> ([k] + ks)[i] == ks[i - 1];
  }

  /** `EN_TO_PT.get(k, k)`: the Portuguese label of a catalogue key; any
      other string is its own label. */
  function Localize(k: string): (shown: string)
    ensures (forall i :: 0 <= i < |EnToPt| ==> EnToPt[i].0 != k) ==> shown == k
    ensures (exists i :: 0 <= i < |EnToPt| && EnToPt[i].0 == k) ==>
              exists i :: 0 <= i < |EnToPt| && EnToPt[i] == (k, shown)
  {
    Translate(EnToPt, k)
  }

  /** Pointwise `Localize`, as the encoder builds `selected_pt`. */
  function LocalizeAll(ks: seq<string>): (labels: seq<string>)
    ensures |labels| == |ks|
    ensures forall i :: 0 <= i < |ks| ==> labels[i] == Localize(ks[i])
  {
    TranslateAll(EnToPt, ks)
  }

  /** Neither "patient_age" nor "patient_sex" names a column past the first two. */
  lemma AgeAndSexOnlyLead()
    ensures forall i :: 2 <= i < |FeatureNames1| ==>
              FeatureNames1[i] != "patient_age" && FeatureNames1[i] != "patient_sex"
  {
  }

  lemma AgeAndSexNotLater()
    ensures forall i :: 0 <= i < |FeatureNames2| ==>
              FeatureNames2[i] != "patient_age" && FeatureNames2[i] != "patient_sex"
    ensures forall i :: 0 <= i < |FeatureNames3| ==>
              FeatureNames3[i] != "patient_age" && FeatureNames3[i] != "patient_sex"
    ensures forall i :: 0 <= i < |FeatureNames4| ==>
              FeatureNames4[i] != "patient_age" && FeatureNames4[i] != "patient_sex"
  {
  }

  /** The catalogue has 73 columns; age and sex are the first two and no
      other column carries either name. */
  lemma CatalogueShape()
    ensures |FeatureNames| == 73
    ensures FeatureNames[0] == "patient_age" && FeatureNames[1] == "patient_sex"
    ensures forall i :: 2 <= i < |FeatureNames| ==>
              FeatureNames[i] != "patient_age" && FeatureNames[i] != "patient_sex"
  {
    AgeAndSexOnlyLead();
    AgeAndSexNotLater();
    var tail := FeatureNames2 + FeatureNames3 + FeatureNames4;
    assert FeatureNames == FeatureNames1 + tail;
    forall i | |FeatureNames1| <= i < |FeatureNames|
      ensures FeatureNames[i] != "patient_age" && FeatureNames[i] != "patient_sex"
    {
      assert FeatureNames[i] == tail[i - |FeatureNames1|];
    }
  }

  lemma EnToPt1FollowsCatalogue()
    ensures Keys(EnToPt1) == FeatureNames1
  {
  }

  lemma EnToPt2FollowsCatalogue()
    ensures Keys(EnToPt2) == FeatureNames2
  {
  }

  lemma EnToPt3FollowsCatalogue()
    ensures Keys(EnToPt3) == FeatureNames3
  {
  }

  lemma EnToPt4FollowsCatalogue()
    ensures Keys(EnToPt4) == FeatureNames4
  {
  }

  /** `EN_TO_PT` has exactly the keys of `FEATURE_NAMES`, in the same order. */
  lemma EnToPtFollowsCatalogue()
    ensures Keys(EnToPt) == FeatureNames
  {
    EnToPt1FollowsCatalogue();
    EnToPt2FollowsCatalogue();
    EnToPt3FollowsCatalogue();
    EnToPt4FollowsCatalogue();
    KeysAppend(EnToPt1, EnToPt2);
    KeysAppend(EnToPt1 + EnToPt2, EnToPt3);
    KeysAppend(EnToPt1 + EnToPt2 + EnToPt3, EnToPt4);
  }

  /* No label of one part of `EN_TO_PT` equals a key of another part; one
     lemma per pair of parts keeps each proof small. */
  lemma Labels1AreNotKeys1()
    ensures forall i, j :: 0 <= i < |EnToPt1| && 0 <= j < |EnToPt1| ==> EnToPt1[i].1 != EnToPt1[j].0
  {
  }

  lemma Labels1AreNotKeys2()
    ensures forall i, j :: 0 <= i < |EnToPt1| && 0 <= j < |EnToPt2| ==> EnToPt1[i].1 != EnToPt2[j].0
  {
  }

  lemma Labels1AreNotKeys3()
    ensures forall i, j :: 0 <= i < |EnToPt1| && 0 <= j < |EnToPt3| ==> EnToPt1[i].1 != EnToPt3[j].0
  {
  }

  lemma Labels1AreNotKeys4()
    ensures forall i, j :: 0 <= i < |EnToPt1| && 0 <= j < |EnToPt4| ==> EnToPt1[i].1 != EnToPt4[j].0
  {
  }

  lemma Labels2AreNotKeys1()
    ensures forall i, j :: 0 <= i < |EnToPt2| && 0 <= j < |EnToPt1| ==> EnToPt2[i].1 != EnToPt1[j].0
  {
  }

  lemma Labels2AreNotKeys2()
    ensures forall i, j :: 0 <= i < |EnToPt2| && 0 <= j < |EnToPt2| ==> EnToPt2[i].1 != EnToPt2[j].0
  {
  }

  lemma Labels2AreNotKeys3()
    ensures forall i, j :: 0 <= i < |EnToPt2| && 0 <= j < |EnToPt3| ==> EnToPt2[i].1 != EnToPt3[j].0
  {
  }

  lemma Labels2AreNotKeys4()
    ensures forall i, j :: 0 <= i < |EnToPt2| && 0 <= j < |EnToPt4| ==> EnToPt2[i].1 != EnToPt4[j].0
  {
  }

  lemma Labels3AreNotKeys1()
    ensures forall i, j :: 0 <= i < |EnToPt3| && 0 <= j < |EnToPt1| ==> EnToPt3[i].1 != EnToPt1[j].0
  {
  }

  lemma Labels3AreNotKeys2()
    ensures forall i, j :: 0 <= i < |EnToPt3| && 0 <= j < |EnToPt2| ==> EnToPt3[i].1 != EnToPt2[j].0
  {
  }

  lemma Labels3AreNotKeys3()
    ensures forall i, j :: 0 <= i < |EnToPt3| && 0 <= j < |EnToPt3| ==> EnToPt3[i].1 != EnToPt3[j].0
  {
  }

  lemma Labels3AreNotKeys4()
    ensures forall i, j :: 0 <= i < |EnToPt3| && 0 <= j < |EnToPt4| ==> EnToPt3[i].1 != EnToPt4[j].0
  {
  }

  lemma Labels4AreNotKeys1()
    ensures forall i, j :: 0 <= i < |EnToPt4| && 0 <= j < |EnToPt1| ==> EnToPt4[i].1 != EnToPt1[j].0
  {
  }

  lemma Labels4AreNotKeys2()
    ensures forall i, j :: 0 <= i < |EnToPt4| && 0 <= j < |EnToPt2| ==> EnToPt4[i].1 != EnToPt2[j].0
  {
  }

  lemma Labels4AreNotKeys3()
    ensures forall i, j :: 0 <= i < |EnToPt4| && 0 <= j < |EnToPt3| ==> EnToPt4[i].1 != EnToPt3[j].0
  {
  }

  lemma Labels4AreNotKeys4()
    ensures forall i, j :: 0 <= i < |EnToPt4| && 0 <= j < |EnToPt4| ==> EnToPt4[i].1 != EnToPt4[j].0
  {
  }

  /** No Portuguese label is itself a catalogue key. */
  lemma LabelsAreNotKeys()
    ensures forall i, j :: 0 <= i < |EnToPt| && 0 <= j < |EnToPt| ==> EnToPt[i].1 != EnToPt[j].0
  {
    Labels1AreNotKeys1(); Labels1AreNotKeys2(); Labels1AreNotKeys3(); Labels1AreNotKeys4();
    Labels2AreNotKeys1(); Labels2AreNotKeys2(); Labels2AreNotKeys3(); Labels2AreNotKeys4();
    Labels3AreNotKeys1(); Labels3AreNotKeys2(); Labels3AreNotKeys3(); Labels3AreNotKeys4();
    Labels4AreNotKeys1(); Labels4AreNotKeys2(); Labels4AreNotKeys3(); Labels4AreNotKeys4();
  }

  /** Looking a label up a second time changes nothing: a Portuguese label is
      never itself a key, and a string that is not a key is its own label. */
  lemma LocalizeIdempotent(k: string)
    ensures Localize(Localize(k)) == Localize(k)
  {
    match Lookup(EnToPt, k)
    case None =>
    case Some(pt) =>
      LabelsAreNotKeys();
      var i :| 0 <= i < |EnToPt| && EnToPt[i] == (k, pt);
      assert Lookup(EnToPt, pt).None?;
  }

  lemma LocalizeAllIdempotent(ks: seq<string>)
    ensures LocalizeAll(LocalizeAll(ks)) == LocalizeAll(ks)
  {
    forall i | 0 <= i < |ks| {
      LocalizeIdempotent(ks[i]);
    }
  }
}
