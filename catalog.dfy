/**
 * The feature catalog of the scoring service: the seven numeric and the
 * seventeen categorical column names, and the 24-column order the trained
 * pipeline was fitted against (numeric first, then categorical).
 */
module Catalog {

  /** The value held in one column of one record: a number, a text, or a missing value. */
  datatype Cell = Num(n: real) | Str(s: string) | Null

  const NumericFeatures: seq<string> := [
    "Recycled Content %",
    "Virgin Content %",
    "Carbon Footprint (kg CO2e)",
    "Water Consumption (L)",
    "Power Consumption (kWh)",
    "Packaging Recycled Content %",
    "Expected Lifespan (yrs)"
  ]

  const CategoricalFeatures: seq<string> := [
    "Base Material",
    "Contains Plastic",
    "Biodegradable",
    "Compostable",
    "Recyclability Level",
    "Reusability",
    "Repairability",
    "End-of-Life",
    "Coating Type",
    "Mixed Materials",
    "Toxicity Concerns",
    "Packaging Material",
    "Packaging Recyclable",
    "Food Safe",
    "Chemical Leaching Risk",
    "SVHC Presence",
    "Plasticizer Type"
  ]

  /** The column order handed to the pipeline. */
  const AllFeatures: seq<string> := NumericFeatures + CategoricalFeatures

  ghost predicate NoDuplicates<T>(s: seq<T>) {
    forall i, j :: 0 <= i < j < |s| ==> s[i] != s[j]
  }

  // Distinctness of the 24 names is proved through integer fingerprints: comparing the
  // string literals pairwise directly sits close to the verifier's resource limit and
  // its cost varies widely with the solver's random seed.

  /** A cheap fingerprint of a name of two characters or more: its length and its last two characters. */
  function Signature(s: string): int
    requires |s| > 1
  {
    |s| * 65536 + s[|s| - 2] as int * 256 + s[|s| - 1] as int
  }

  /** Names whose fingerprints are pairwise distinct are pairwise distinct. */
  lemma DistinctBySignature(names: seq<string>, sigs: seq<int>)
    requires |names| == |sigs|
    requires forall i :: 0 <= i < |names| ==> |names[i]| > 1 && sigs[i] == Signature(names[i])
    requires NoDuplicates(sigs)
    ensures NoDuplicates(names)
  {
  }

  function Signatures(names: seq<string>): (r: seq<int>)
    requires forall i :: 0 <= i < |names| ==> |names[i]| > 1
    ensures |r| == |names| && forall i :: 0 <= i < |names| ==> r[i] == Signature(names[i])
  {
    seq(|names|, i requires 0 <= i < |names| => Signature(names[i]))
  }

  /** The fingerprints of the numeric names, in catalog order. */
  const NumericSignatureTable: seq<int> := [
    1187877, 1056805, 1729833, 1395753, 1533993, 1843237, 1536809]

  /** The fingerprints of the categorical names, in catalog order. */
  const CategoricalSignatureTable: seq<int> := [
    876908, 1075555, 879717, 748645, 1271148, 750713, 881785, 747109, 815205, 1010803,
    1142387, 1204588, 1338469, 616037, 1471339, 877413, 1077349]

  lemma NumericSignatures()
    ensures forall i :: 0 <= i < |NumericFeatures| ==> |NumericFeatures[i]| > 1
    ensures Signatures(NumericFeatures) == NumericSignatureTable
  {
  }

  lemma CategoricalSignatures()
    ensures forall i :: 0 <= i < |CategoricalFeatures| ==> |CategoricalFeatures[i]| > 1
    ensures Signatures(CategoricalFeatures) == CategoricalSignatureTable
  {
    assert Signature(CategoricalFeatures[0]) == 876908;
    assert Signature(CategoricalFeatures[1]) == 1075555;
    assert Signature(CategoricalFeatures[2]) == 879717;
    assert Signature(CategoricalFeatures[3]) == 748645;
    assert Signature(CategoricalFeatures[4]) == 1271148;
    assert Signature(CategoricalFeatures[5]) == 750713;
    assert Signature(CategoricalFeatures[6]) == 881785;
    assert Signature(CategoricalFeatures[7]) == 747109;
    assert Signature(CategoricalFeatures[8]) == 815205;
    assert Signature(CategoricalFeatures[9]) == 1010803;
    assert Signature(CategoricalFeatures[10]) == 1142387;
    assert Signature(CategoricalFeatures[11]) == 1204588;
    assert Signature(CategoricalFeatures[12]) == 1338469;
    assert Signature(CategoricalFeatures[13]) == 616037;
    assert Signature(CategoricalFeatures[14]) == 1471339;
    assert Signature(CategoricalFeatures[15]) == 877413;
    assert Signature(CategoricalFeatures[16]) == 1077349;
  }

  lemma NumericTableDistinct()
    ensures NoDuplicates(NumericSignatureTable)
  {
  }

  lemma CategoricalTableDistinct()
    ensures NoDuplicates(CategoricalSignatureTable)
  {
  }

  lemma TablesDisjoint()
    ensures forall x :: x in NumericSignatureTable ==> x !in CategoricalSignatureTable
  {
  }

  /** Two duplicate-free sequences with no element in common concatenate to a duplicate-free one. */
  lemma NoDuplicatesConcat<T>(a: seq<T>, b: seq<T>)
    requires NoDuplicates(a) && NoDuplicates(b)
    requires forall x :: x in a ==> x !in b
    ensures NoDuplicates(a + b)
  {
    forall i, j | 0 <= i < j < |a + b|
      ensures (a + b)[i] != (a + b)[j]
    {
      if i < |a| && |a| <= j {
        assert (a + b)[i] in a && (a + b)[j] in b;
      }
    }
  }

  /** The 24 fingerprints are pairwise distinct. */
  lemma SignatureTableDistinct()
    ensures NoDuplicates(NumericSignatureTable + CategoricalSignatureTable)
  {
    NumericTableDistinct();
    CategoricalTableDistinct();
    TablesDisjoint();
    NoDuplicatesConcat(NumericSignatureTable, CategoricalSignatureTable);
  }

  lemma SignaturesConcat(a: seq<string>, b: seq<string>)
    requires forall i :: 0 <= i < |a| ==> |a[i]| > 1
    requires forall i :: 0 <= i < |b| ==> |b[i]| > 1
    ensures forall i :: 0 <= i < |a + b| ==> |(a + b)[i]| > 1
    ensures Signatures(a + b) == Signatures(a) + Signatures(b)
  {
  }

  lemma AllSignatures()
    ensures forall i :: 0 <= i < |AllFeatures| ==> |AllFeatures[i]| > 1
    ensures Signatures(AllFeatures) == NumericSignatureTable + CategoricalSignatureTable
  {
    NumericSignatures();
    CategoricalSignatures();
    SignaturesConcat(NumericFeatures, CategoricalFeatures);
  }

  /** The catalog has 7 numeric and 17 categorical names, 24 in all, all distinct. */
  lemma CatalogShape()
    ensures |NumericFeatures| == 7 && |CategoricalFeatures| == 17 && |AllFeatures| == 24
    ensures AllFeatures[..7] == NumericFeatures && AllFeatures[7..] == CategoricalFeatures
    ensures NoDuplicates(AllFeatures)
  {
    AllSignatures();
    SignatureTableDistinct();
    DistinctBySignature(AllFeatures, Signatures(AllFeatures));
  }

  /** The two lists share no name. */
  lemma CatalogDisjoint()
    ensures forall c :: c in NumericFeatures ==> c !in CategoricalFeatures
  {
    CatalogShape();
  }

  /** A column of the 24-column order is categorical exactly when it lies past the seven numeric ones. */
  lemma CategoricalPosition(i: nat)
    requires i < |AllFeatures|
    ensures AllFeatures[i] in CategoricalFeatures <==> 7 <= i
  {
    CatalogShape();
    CatalogDisjoint();
    if 7 <= i {
      assert AllFeatures[i] == CategoricalFeatures[i - 7];
    } else {
      assert AllFeatures[i] == NumericFeatures[i];
    }
  }
}
