/** The behaviour of the `MedicalRecord` domain entity (Domain/Entities/MedicalRecord.cs). */
module MedicalRecordEntity {
  import opened Wrappers
  import opened Text
  import PrescriptionEntity

  datatype MedicalRecord = MedicalRecord(
    id: int,
    patientId: int,
    doctorId: int,
    appointmentId: Option<int>,
    visitDate: int,
    diagnosis: Option<string>,
    followUpInstructions: Option<string>,
    prescriptions: seq<PrescriptionEntity.Prescription>)

  /** `HasDiagnosis`: a diagnosis with at least one visible character. */
  function HasDiagnosis(m: MedicalRecord): (r: bool)
    ensures r <==> m.diagnosis.Some? && exists i :: 0 <= i < |m.diagnosis.value| && !IsWhiteSpaceChar(m.diagnosis.value[i])
  {
    !IsNullOrWhiteSpace(m.diagnosis)
  }

  /** `HasPrescriptions`: some prescription is attached to the record. */
  function HasPrescriptions(m: MedicalRecord): (r: bool)
    ensures r <==> m.prescriptions != []
  {
    |m.prescriptions| > 0
  }

  /** `RequiresFollowUp`: follow-up instructions with at least one visible character. */
  function RequiresFollowUp(m: MedicalRecord): (r: bool)
    ensures r <==> m.followUpInstructions.Some? && exists i :: 0 <= i < |m.followUpInstructions.value| && !IsWhiteSpaceChar(m.followUpInstructions.value[i])
  {
    !IsNullOrWhiteSpace(m.followUpInstructions)
  }

  /** Blank text, a line break or a run of spaces, records no diagnosis. */
  lemma BlankDiagnosisExample(m: MedicalRecord)
    requires m.diagnosis == Some(" \t\n")
    ensures !HasDiagnosis(m)
  {
  }
}
