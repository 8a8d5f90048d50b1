/** The request checks of `upload_image` (app.py:138-198). The checks run in
    a fixed order and the first one that fails decides the 400 message:
    missing `file` part, empty file name, disallowed extension, size over
    MAX_FILE_SIZE, undecodable image. The file's size and whether it decodes
    are given with the request instead of being read from disk. */
module Upload {

  import opened Options
  import opened Defects
  import Extensions
  import Summary

  /** MAX_FILE_SIZE (app.py:24): 16 MiB. */
  const MaxFileSize: nat := 16 * 1024 * 1024

  /** The uploaded `file` part: its name, its size in bytes and whether
      `cv2.imread` could decode it. */
  datatype FilePart = FilePart(filename: string, size: nat, decodes: bool)

  /** The error messages of app.py:144-170, in check order. */
  const NoFileSent: string := "Nenhum arquivo enviado"
  const NoFileSelected: string := "Nenhum arquivo selecionado"
  const TypeNotAllowed: string := "Tipo de arquivo não permitido. Use PNG, JPG, JPEG, BMP ou TIFF"
  const FileTooLarge: string := "Arquivo muito grande (máximo 16MB)"
  const CannotProcess: string := "Erro ao processar imagem"

  datatype Verdict = Reject(message: string) | Proceed

  /** The early-return chain of app.py:143-170. Its order is stated by
      ValidateIsFirstFailure and its accepting case by ProceedIff. */
  function Validate(file: Option<FilePart>): (v: Verdict)
    ensures v.Reject? ==> v.message in [NoFileSent, NoFileSelected, TypeNotAllowed, FileTooLarge, CannotProcess]
  {
    if file.None? then Reject(NoFileSent)
    else if file.value.filename == "" then Reject(NoFileSelected)
    else if !Extensions.AllowedFile(file.value.filename) then Reject(TypeNotAllowed)
    else if file.value.size > MaxFileSize then Reject(FileTooLarge)
    else if !file.value.decodes then Reject(CannotProcess)
    else Proceed
  }

  /** One check: whether it passes and the message it rejects with. */
  datatype Check = Check(passes: bool, message: string)

  /** The reference reading of the chain: the checks as a list in their
      order; the first failing one decides. */
  function Checks(f: FilePart): seq<Check>
  {
    [ Check(f.filename != "", NoFileSelected),
      Check(Extensions.AllowedFile(f.filename), TypeNotAllowed),
      Check(f.size <= MaxFileSize, FileTooLarge),
      Check(f.decodes, CannotProcess) ]
  }

  function FirstFailure(cs: seq<Check>): (v: Verdict)
    ensures v == Proceed <==> forall i :: 0 <= i < |cs| ==> cs[i].passes
  {
    if cs == [] then Proceed
    else if !cs[0].passes then Reject(cs[0].message)
    else
      assert forall i :: 1 <= i < |cs| ==> cs[i] == cs[1..][i - 1];
      FirstFailure(cs[1..])
  }

  /** The earliest failing check decides the message, whatever the checks
      after it say. */
  lemma {:induction false} FirstFailureDecides(cs: seq<Check>, i: nat)
    requires i < |cs| && !cs[i].passes
    requires forall j :: 0 <= j < i ==> cs[j].passes
    ensures FirstFailure(cs) == Reject(cs[i].message)
  {
    if i > 0 {
      FirstFailureDecides(cs[1..], i - 1);
    }
  }

  /** The chain is the first-failure rule over the checks in order. */
  lemma {:induction false} ValidateIsFirstFailure(file: Option<FilePart>)
    ensures Validate(file) == if file.None? then Reject(NoFileSent) else FirstFailure(Checks(file.value))
  {
    if file.Some? {
      var f := file.value;
      var cs := Checks(f);
      if f.filename == "" {
        FirstFailureDecides(cs, 0);
      } else if !Extensions.AllowedFile(f.filename) {
        FirstFailureDecides(cs, 1);
      } else if f.size > MaxFileSize {
        FirstFailureDecides(cs, 2);
      } else if !f.decodes {
        FirstFailureDecides(cs, 3);
      }
    }
  }

  /** An upload proceeds exactly when every check passes. */
  lemma {:induction false} ProceedIff(file: Option<FilePart>)
    ensures Validate(file) == Proceed <==>
      && file.Some?
      && file.value.filename != ""
      && Extensions.AllowedFile(file.value.filename)
      && file.value.size <= MaxFileSize
      && file.value.decodes
  {
  }

  /** The size limit is inclusive: exactly 16 MiB passes the size check,
      one byte more is rejected as too large, whether or not it would decode. */
  lemma SizeBoundary(name: string, decodes: bool)
    requires name != "" && Extensions.AllowedFile(name)
    ensures Validate(Some(FilePart(name, MaxFileSize, true))) == Proceed
    ensures Validate(Some(FilePart(name, MaxFileSize + 1, decodes))) == Reject(FileTooLarge)
    ensures Validate(Some(FilePart(name, 17 * 1024 * 1024, decodes))) == Reject(FileTooLarge)
  {
  }

  /** Decoding is only attempted once validation has passed: a file part
      that fails the name, extension or size check gets the same answer
      whichever way the file would decode, and that answer is not the
      decoding error. */
  lemma DecodeNotConsultedOnValidationError(f: FilePart)
    requires f.filename == "" || !Extensions.AllowedFile(f.filename) || f.size > MaxFileSize
    ensures Validate(Some(f.(decodes := !f.decodes))) == Validate(Some(f))
    ensures Validate(Some(f)) != Reject(CannotProcess)
  {
  }

  /** Dispatch order matters: a file part with an empty name is reported as
      not selected, not as having a disallowed extension, although an empty
      name has no extension either. */
  lemma EmptyNameReportedFirst(size: nat, decodes: bool)
    ensures !Extensions.AllowedFile("")
    ensures Validate(Some(FilePart("", size, decodes))) == Reject(NoFileSelected)
  {
  }

  /** The JSON answer: a 400 error, or success with the detections and the
      summary (the encoded images are not modelled). */
  datatype Response =
    | Error(status: nat, error: string)
    | Success(detections: seq<Detection>, summary: Summary.Summary)

  /** `upload_image`, given the detections the detector reports. */
  function HandleUpload(file: Option<FilePart>, detections: seq<Detection>): (r: Response)
    ensures r.Success? <==> Validate(file) == Proceed
    ensures r.Error? ==> r.status == 400 && Validate(file) == Reject(r.error)
    ensures r.Success? ==> r.detections == detections && r.summary == Summary.Summarize(detections)
  {
    match Validate(file)
    case Reject(message) => Error(400, message)
    case Proceed => Success(detections, Summary.Summarize(detections))
  }
}
