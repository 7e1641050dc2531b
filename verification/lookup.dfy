/**
 * The two ways the script finds a patient in the dataset: the typed NIC of the
 * fetch button (trimmed, rejected when empty, then an exact key read) and the
 * text decoded from a QR image (used as it is, with no trimming).
 */
module Lookup {
  import opened Wrappers
  import opened Text
  import opened Risk

  /** Outcome of the fetch button: an empty-input alert, a not-found alert, or a
      record to display. */
  datatype FetchOutcome = EmptyId | NotFound(nic: string) | Found(patient: Patient)

  /** The fetch-button handler: trim the typed text, stop if nothing is left,
      otherwise read the dataset under exactly the trimmed text. */
  function FetchPatient(patients: map<string, Patient>, input: string): (r: FetchOutcome)
    ensures r.EmptyId? <==> IsBlank(input)
    ensures r.Found? <==> !IsBlank(input) && Trim(input) in patients
    ensures r.Found? ==> r.patient == patients[Trim(input)]
    ensures r.NotFound? ==> r.nic == Trim(input) && r.nic != [] && r.nic !in patients
  {
    var nic := Trim(input);
    if nic == [] then EmptyId
    else if nic !in patients then NotFound(nic)
    else Found(patients[nic])
  }

  /** Outcome of the QR path: nothing decoded, a decoded text that is not a key,
      or a record to display. */
  datatype QrOutcome = NoQr | NotInDataset(decoded: string) | QrFound(patient: Patient)

  /** The QR handler after decoding: `decoded` is `None` when no code was found;
      an empty text counts as nothing decoded; any other text is used as the key
      as it is. */
  function QrLookup(patients: map<string, Patient>, decoded: Option<string>): (r: QrOutcome)
    ensures r.NoQr? <==> decoded == None || decoded == Some([])
    ensures r.QrFound? <==> decoded.Some? && decoded.value != [] && decoded.value in patients
    ensures r.QrFound? ==> r.patient == patients[decoded.value]
    ensures r.NotInDataset? ==> decoded == Some(r.decoded) && r.decoded !in patients
  {
    match decoded
    case None => NoQr
    case Some(text) =>
      if text == [] then NoQr
      else if text in patients then QrFound(patients[text])
      else NotInDataset(text)
  }

  /** A blank input is turned away before the dataset is consulted: the outcome is
      the same whatever the dataset holds. */
  lemma BlankInputIgnoresDataset(d1: map<string, Patient>, d2: map<string, Patient>, input: string)
    requires IsBlank(input)
    ensures FetchPatient(d1, input) == FetchPatient(d2, input) == EmptyId
  {
  }

  /** White space typed around a NIC does not change what is found. */
  lemma FetchIgnoresPadding(patients: map<string, Patient>, pre: string, nic: string, post: string)
    requires IsBlank(pre) && IsBlank(post)
    ensures FetchPatient(patients, pre + nic + post) == FetchPatient(patients, nic)
  {
    TrimIgnoresPadding(pre, nic, post);
  }

  /** On a text that is already trimmed and not empty the two entry points agree. */
  lemma TypedAndScannedAgree(patients: map<string, Patient>, nic: string)
    requires nic != [] && Trim(nic) == nic
    ensures FetchPatient(patients, nic).Found? <==> QrLookup(patients, Some(nic)).QrFound?
    ensures FetchPatient(patients, nic).Found? ==>
              FetchPatient(patients, nic).patient == QrLookup(patients, Some(nic)).patient
  {
  }

  /** A dataset key that starts or ends with white space can be reached only by a
      scanned code: no typed input trims to it, while the QR path finds it. */
  lemma PaddedKeyOnlyScannable(patients: map<string, Patient>, key: string)
    requires key in patients && key != []
    requires IsSpace(key[0]) || IsSpace(key[|key| - 1])
    ensures forall input :: Trim(input) != key
    ensures QrLookup(patients, Some(key)) == QrFound(patients[key])
  {
  }
}
