/**
 * Education entries of an alumnus and the two rules applied to them:
 * submission-time validation (`validateEducations`) and the choice of the
 * primary education (first entry flagged primary, otherwise the first entry).
 */
module Educations {
  import opened Common

  /**
   * One education entry. Numeric fields follow JavaScript truthiness: a year
   * of 0 is a year that was not given; an empty string is a missing name.
   */
  datatype Education = Education(
    degree: string,
    enrollmentYear: int,
    graduationYear: int,
    college: string,
    major: string,
    headTeacher: string,
    middleSchool: string,
    isPrimary: bool)

  const ValidDegrees: seq<string> := ["bachelor", "master", "doctor", "highschool", "middleschool"]

  const MaxEducations := 5

  const MinEnrollmentYear := 1900

  /** The checks applied to each entry, in the order the validator applies them. */
  predicate EntryValid(e: Education, schoolType: string, currentYear: int)
  {
    && e.degree in ValidDegrees
    && e.enrollmentYear != 0 && MinEnrollmentYear <= e.enrollmentYear <= currentYear
    && !(e.graduationYear != 0 && e.graduationYear < e.enrollmentYear)
    && (schoolType != "university" ==> e.headTeacher != "")
    && (schoolType == "highschool" ==> e.middleSchool != "")
  }

  /** The loop over the entries: it stops at the first entry that fails. */
  function EntriesValid(edus: seq<Education>, schoolType: string, currentYear: int): (ok: bool)
    ensures ok <==> forall i :: 0 <= i < |edus| ==> EntryValid(edus[i], schoolType, currentYear)
  {
    if |edus| == 0 then true
    else EntryValid(edus[0], schoolType, currentYear) && EntriesValid(edus[1..], schoolType, currentYear)
  }

  /** Number of entries flagged primary (`filter(e => e.isPrimary).length`). */
  function PrimaryCount(edus: seq<Education>): nat
  {
    if |edus| == 0 then 0 else (if edus[0].isPrimary then 1 else 0) + PrimaryCount(edus[1..])
  }

  predicate AtMostOnePrimary(edus: seq<Education>)
  {
    forall i, j :: 0 <= i < |edus| && 0 <= j < |edus| && edus[i].isPrimary && edus[j].isPrimary ==> i == j
  }

  /** Counting at most one primary entry is the same as no two distinct primary entries. */
  lemma {:induction false} PrimaryCountAtMostOne(edus: seq<Education>)
    ensures PrimaryCount(edus) <= 1 <==> AtMostOnePrimary(edus)
  {
    if |edus| > 0 {
      var rest := edus[1..];
      PrimaryCountAtMostOne(rest);
      PrimaryCountZero(rest);
      if edus[0].isPrimary {
        if AtMostOnePrimary(edus) {
          forall j | 0 <= j < |rest| ensures !rest[j].isPrimary {
            assert edus[j + 1] == rest[j];
          }
        }
      } else {
        if AtMostOnePrimary(rest) {
          forall i, j | 0 <= i < |edus| && 0 <= j < |edus| && edus[i].isPrimary && edus[j].isPrimary
            ensures i == j
          {
            assert edus[i] == rest[i - 1] && edus[j] == rest[j - 1];
          }
        }
      }
    }
  }

  lemma {:induction false} PrimaryCountZero(edus: seq<Education>)
    ensures PrimaryCount(edus) == 0 <==> forall i :: 0 <= i < |edus| ==> !edus[i].isPrimary
  {
    if |edus| > 0 {
      PrimaryCountZero(edus[1..]);
      assert forall i :: 1 <= i < |edus| ==> edus[i] == edus[1..][i - 1];
    }
  }

  /**
   * `validateEducations(educations, schoolType)`: `None` stands for a value
   * that is not an array; a failure is the INVALID_PARAM error.
   */
  function ValidateEducations(educations: Option<seq<Education>>, schoolType: string, currentYear: int): bool
  {
    match educations
    case None => false
    case Some(edus) =>
      |edus| != 0
      && |edus| <= MaxEducations
      && EntriesValid(edus, schoolType, currentYear)
      && PrimaryCount(edus) <= 1
  }

  /**
   * The validator accepts exactly a list of one to five entries, each with a
   * known degree, an enrollment year from 1900 to the current year, no
   * graduation year before enrollment, a head teacher outside universities
   * and a middle school for high schools, and at most one primary entry.
   */
  lemma ValidateEducationsMeaning(educations: Option<seq<Education>>, schoolType: string, currentYear: int)
    ensures ValidateEducations(educations, schoolType, currentYear) <==>
      && educations.Some?
      && 1 <= |educations.value| <= MaxEducations
      && (forall i :: 0 <= i < |educations.value| ==> EntryValid(educations.value[i], schoolType, currentYear))
      && AtMostOnePrimary(educations.value)
  {
    if educations.Some? {
      PrimaryCountAtMostOne(educations.value);
    }
  }

  /** Index of the first entry flagged primary (`findIndex(e => e.isPrimary)`). */
  function FirstPrimary(edus: seq<Education>): (r: Option<nat>)
    ensures r.Some? ==> r.value < |edus| && edus[r.value].isPrimary
    ensures r.Some? ==> forall j :: 0 <= j < r.value ==> !edus[j].isPrimary
    ensures r.None? ==> forall j :: 0 <= j < |edus| ==> !edus[j].isPrimary
  {
    if |edus| == 0 then None
    else if edus[0].isPrimary then Some(0)
    else match FirstPrimary(edus[1..])
      case None => None
      case Some(i) => Some(i + 1)
  }

  /** `educations.find(e => e.isPrimary) || educations[0]`. */
  function PrimaryEducation(edus: seq<Education>): (p: Option<Education>)
    ensures p.None? <==> |edus| == 0
    ensures p.Some? ==> p.value in edus
    ensures (exists i :: 0 <= i < |edus| && edus[i].isPrimary) ==> p.Some? && p.value.isPrimary
    ensures (forall i :: 0 <= i < |edus| ==> !edus[i].isPrimary) && |edus| > 0 ==> p == Some(edus[0])
  {
    match FirstPrimary(edus)
    case Some(i) => Some(edus[i])
    case None => if |edus| == 0 then None else Some(edus[0])
  }

  /** With at most one primary entry (as the validator guarantees), that entry is the primary education. */
  lemma PrimaryEducationUnique(edus: seq<Education>, k: nat)
    requires AtMostOnePrimary(edus)
    requires k < |edus| && edus[k].isPrimary
    ensures PrimaryEducation(edus) == Some(edus[k])
  {
  }
}
