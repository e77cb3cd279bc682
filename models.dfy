/**
 * The data model: the focus sample (`FocusData`), the `Assignment` record with its
 * "PDF or YouTube, never both" validators, and the grade validator of `Enrollment`.
 */
module Models {
  import opened Wrappers

  /** One gaze sample. `t` is the timestamp in microseconds; `x`, `y` are screen
      coordinates, nominally in [0, 1] but never checked. */
  datatype Sample = Sample(x: real, y: real, outside: bool, t: int)

  /** The `ValueError`s the validators raise. */
  datatype ValueError =
    | PdfWithVideo        // "An assignment cannot have both a PDF and a YouTube video."
    | VideoWithPdf        // "An assignment cannot have both a YouTube video and a PDF."
    | NeitherPdfNorVideo  // "An assignment must have either a PDF or a YouTube video."
    | GradeOutOfRange     // "Grade must be between 0 and 100."

  /** Python truthiness of an optional string: not `None` and not empty. */
  predicate Truthy(v: Option<string>)
  {
    v.Some? && v.value != ""
  }

  class Assignment {
    var pdfPath: Option<string>
    var youtubeUrl: Option<string>

    /** The object invariant the validators keep: never both a PDF and a video. */
    predicate Valid()
      reads this
    {
      !(Truthy(pdfPath) && Truthy(youtubeUrl))
    }

    /** A fresh row: both columns are NULL until set. */
    constructor ()
      ensures Valid()
      ensures pdfPath == None && youtubeUrl == None
    {
      pdfPath := None;
      youtubeUrl := None;
    }

    /** Assigning `pdf_path` through `validate_assignment_type`: refused when the
        new value is truthy while a video is set; the field is then left as it was. */
    method SetPdfPath(value: Option<string>) returns (err: Option<ValueError>)
      modifies this
      ensures err == (if Truthy(value) && Truthy(old(youtubeUrl)) then Some(PdfWithVideo) else None)
      ensures pdfPath == (if err.None? then value else old(pdfPath))
      ensures youtubeUrl == old(youtubeUrl)
      ensures err.None? ==> Valid()
      ensures old(Valid()) ==> Valid()
    {
      if Truthy(value) && Truthy(youtubeUrl) {
        return Some(PdfWithVideo);
      }
      pdfPath := value;
      return None;
    }

    /** Assigning `youtube_url`, symmetric to `SetPdfPath`. */
    method SetYoutubeUrl(value: Option<string>) returns (err: Option<ValueError>)
      modifies this
      ensures err == (if Truthy(value) && Truthy(old(pdfPath)) then Some(VideoWithPdf) else None)
      ensures youtubeUrl == (if err.None? then value else old(youtubeUrl))
      ensures pdfPath == old(pdfPath)
      ensures err.None? ==> Valid()
      ensures old(Valid()) ==> Valid()
    {
      if Truthy(value) && Truthy(pdfPath) {
        return Some(VideoWithPdf);
      }
      youtubeUrl := value;
      return None;
    }

    /** `is_pdf_assignment`: a test of None-ness, not of truthiness, so it holds for
        every truthy PDF path and also for an empty one. */
    predicate IsPdfAssignment(): (r: bool)
      reads this
      ensures r <==> pdfPath != None
      ensures Truthy(pdfPath) ==> r
    {
      pdfPath.Some?
    }

    /** `is_video_assignment`, the same None test on the video URL. */
    predicate IsVideoAssignment(): (r: bool)
      reads this
      ensures r <==> youtubeUrl != None
      ensures Truthy(youtubeUrl) ==> r
    {
      youtubeUrl.Some?
    }
  }

  /** `Assignment(pdf_path=pdf, youtube_url=url)`: the keyword arguments are assigned in
      that order through the validators, then `__init__` demands a truthy PDF or video. */
  method NewAssignment(pdf: Option<string>, url: Option<string>) returns (r: Result<Assignment, ValueError>)
    ensures r.Success? <==> (Truthy(pdf) || Truthy(url)) && !(Truthy(pdf) && Truthy(url))
    ensures r.Failure? ==> r.error == (if Truthy(pdf) && Truthy(url) then VideoWithPdf else NeitherPdfNorVideo)
    ensures r.Success? ==> fresh(r.value) && r.value.Valid()
    ensures r.Success? ==> r.value.pdfPath == pdf && r.value.youtubeUrl == url
    ensures r.Success? ==> r.value.IsPdfAssignment() || r.value.IsVideoAssignment()
  {
    var a := new Assignment();
    var err := a.SetPdfPath(pdf);
    assert err.None?;  // a fresh row has no video yet
    err := a.SetYoutubeUrl(url);
    if err.Some? {
      return Failure(err.value);
    }
    if !Truthy(a.pdfPath) && !Truthy(a.youtubeUrl) {
      return Failure(NeitherPdfNorVideo);
    }
    return Success(a);
  }

  /** A PDF path set to the empty string next to a video passes every validator, and
      then both `is_pdf_assignment` and `is_video_assignment` hold. */
  method EmptyPdfBesideVideo() returns (a: Assignment)
    ensures a.Valid() && a.IsPdfAssignment() && a.IsVideoAssignment()
  {
    var r := NewAssignment(Some(""), Some("https://www.youtube.com/watch?v=x"));
    a := r.value;
  }

  /** The "PDF or video" check runs only in `__init__`: a PDF assignment whose path is
      later set to `None` passes the validator and is left with neither. */
  method ClearedPdfLeavesNeither() returns (a: Assignment)
    ensures a.Valid() && !Truthy(a.pdfPath) && !Truthy(a.youtubeUrl)
    ensures !a.IsPdfAssignment() && !a.IsVideoAssignment()
  {
    var r := NewAssignment(Some("notes.pdf"), None);
    a := r.value;
    var err := a.SetPdfPath(None);
  }

  /** `validate_grade`: `None` or a grade in [0, 100] is accepted and returned unchanged. */
  function ValidateGrade(value: Option<real>): (r: Result<Option<real>, ValueError>)
    ensures r.Success? <==> value.None? || 0.0 <= value.value <= 100.0
    ensures r.Success? ==> r.value == value
    ensures r.Failure? ==> r.error == GradeOutOfRange
  {
    if value.Some? && (value.value < 0.0 || value.value > 100.0) then Failure(GradeOutOfRange)
    else Success(value)
  }
}
