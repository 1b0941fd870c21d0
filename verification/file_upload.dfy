/** The check the upload control runs on the chosen file before sending it:
    a file must be chosen, be named like a CSV or Excel file, and be at most
    10 MB. */
module FileUpload {
  import opened Options
  import opened JsText

  const MaxSizeMb: nat := 10
  /** `MAX_SIZE_MB * 1024 * 1024`. */
  const MaxSizeBytes: nat := MaxSizeMb * 1024 * 1024

  /** The three extensions accepted, compared after lower-casing the name. */
  const CsvExtension: string := ".csv"
  const XlsxExtension: string := ".xlsx"
  const XlsExtension: string := ".xls"

  const NoFileMessage: string := "Please select a file."
  const BadTypeMessage: string := "Only CSV and Excel (.xlsx, .xls) files are allowed."

  /** `File size must be under ${MAX_SIZE_MB} MB.` */
  function TooLargeMessage(): string {
    "File size must be under " + IntText(MaxSizeMb) + " MB."
  }

  /** The parts of a browser `File` the check reads. */
  datatype File = File(name: string, size: nat)

  /** The result of `validateFile`: what it returns and the message it leaves in
      `validationError` (cleared at the start, so empty when the file passes). */
  datatype Validation = Validation(ok: bool, message: string)

  /** `isCsv || isExcel`. */
  predicate HasAcceptedExtension(name: string) {
    var lower := ToLower(name);
    EndsWith(lower, CsvExtension) || EndsWith(lower, XlsxExtension) || EndsWith(lower, XlsExtension)
  }

  /** `validateFile(file)`: the checks in order, the first that fails decides the
      message. */
  function ValidateFile(file: Option<File>): (v: Validation)
    ensures v.ok <==> file.Some? && HasAcceptedExtension(file.value.name) && file.value.size <= MaxSizeBytes
    ensures v.ok <==> v.message == ""
    ensures file.None? ==> v.message == NoFileMessage
    ensures file.Some? && !HasAcceptedExtension(file.value.name) ==> v.message == BadTypeMessage
    ensures file.Some? && HasAcceptedExtension(file.value.name) && file.value.size > MaxSizeBytes ==>
      v.message == TooLargeMessage()
  {
    match file
    case None => Validation(false, NoFileMessage)
    case Some(f) =>
      if !HasAcceptedExtension(f.name) then Validation(false, BadTypeMessage)
      else if f.size > MaxSizeBytes then Validation(false, TooLargeMessage())
      else Validation(true, "")
  }

  /** The limit is ten mebibytes, and the message names it as 10 MB. */
  lemma SizeLimit()
    ensures MaxSizeBytes == 10485760
    ensures TooLargeMessage() == "File size must be under 10 MB."
  {
    assert NatText(10) == NatText(1) + [DigitChar(0)];
  }

  /** A file of exactly the limit passes; one byte more does not. */
  lemma SizeBoundary(name: string)
    requires HasAcceptedExtension(name)
    ensures ValidateFile(Some(File(name, MaxSizeBytes))).ok
    ensures !ValidateFile(Some(File(name, MaxSizeBytes + 1))).ok
  {
  }

  /** A file with the wrong name is refused for its name whatever its size, so
      the size message is only ever seen for a CSV or Excel file. */
  lemma TypeCheckedBeforeSize(name: string, size: nat)
    requires !HasAcceptedExtension(name)
    ensures ValidateFile(Some(File(name, size))).message == BadTypeMessage
  {
  }

  lemma LowerCharIdempotent(c: char)
    ensures LowerChar(LowerChar(c)) == LowerChar(c)
  {
  }

  /** Lower-casing twice is lower-casing once. */
  lemma ToLowerIdempotent(s: string)
    ensures ToLower(ToLower(s)) == ToLower(s)
  {
    forall i | 0 <= i < |s|
      ensures ToLower(ToLower(s))[i] == ToLower(s)[i]
    {
      LowerCharIdempotent(s[i]);
    }
  }

  /** The check ignores the case of the name: `DATA.CSV` is as good as `data.csv`. */
  lemma CaseInsensitive(name: string, size: nat)
    ensures ValidateFile(Some(File(name, size))) == ValidateFile(Some(File(ToLower(name), size)))
  {
    ToLowerIdempotent(name);
  }

  /** An upper-case CSV name passes. */
  lemma UpperCaseCsvAccepted()
    ensures ValidateFile(Some(File("Q1.CSV", 1024))).ok
  {
    var lower := ToLower("Q1.CSV");
    assert lower[2] == '.' && lower[3] == 'c' && lower[4] == 's' && lower[5] == 'v';
    assert lower[2..] == CsvExtension;
  }

  /** Only the end of the name counts. */
  lemma InnerExtensionRefused()
    ensures ValidateFile(Some(File("a.csv.txt", 10))).message == BadTypeMessage
  {
    LastLetterDecides("a.csv.txt");
  }

  /** A name whose last letter, lower-cased, is not the last letter of an
      accepted extension is refused. */
  lemma LastLetterDecides(name: string)
    requires |name| > 0
    requires LowerChar(name[|name| - 1]) != 'v' && LowerChar(name[|name| - 1]) != 'x'
    requires LowerChar(name[|name| - 1]) != 's'
    ensures !HasAcceptedExtension(name)
  {
    var lower := ToLower(name);
    assert lower[|lower| - 1] == LowerChar(name[|name| - 1]);
  }

  lemma NothingChosenRefused()
    ensures !ValidateFile(None).ok
    ensures ValidateFile(None).message == NoFileMessage
  {
  }
}
