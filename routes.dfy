/**
 * The pure pieces of the web routes: their own copy of the distraction and focus
 * time computations, the YouTube video id taken from a watch URL, and the file
 * name shown for an assignment's PDF.
 */
module Routes {
  import opened Wrappers
  import opened Models
  import CronUtils
  import Splitting

  // ---------------------------------------------------------------- time metrics

  /** The routes' `calculate_distraction_time`: the same pass as the one the
      batch job uses, so it computes the same distraction time. */
  method DistractionTime(data: seq<Sample>) returns (distraction: int)
    ensures distraction == CronUtils.Distraction(data)
  {
    distraction := 0;
    var previousTime: Option<int> := None;
    for i := 0 to |data|
      invariant distraction == CronUtils.Distraction(data[..i])
      invariant previousTime == if i == 0 then None else Some(data[i - 1].t)
    {
      var entry := data[i];
      assert data[..i + 1][..i] == data[..i];
      if entry.outside {
        if previousTime.Some? {
          distraction := distraction + (entry.t - previousTime.value);
        }
      }
      previousTime := Some(entry.t);
    }
    assert data[..|data|] == data;
  }

  /** The routes' `calculate_focus_time`: the given total minus the distraction time. */
  method FocusTime(data: seq<Sample>, totalDuration: int) returns (focus: int)
    ensures focus + CronUtils.Distraction(data) == totalDuration
  {
    var distraction := DistractionTime(data);
    focus := totalDuration - distraction;
  }

  // ---------------------------------------------------------------- YouTube video id

  /** The exception an out-of-range list index raises. */
  datatype LookupError = IndexError

  /** `youtube_url.split("v=")[1].split("&")[0]`: fails with `IndexError` when the URL
      has no `v=` at all. */
  function VideoId(url: string): (r: Result<string, LookupError>)
    ensures r.Failure? <==> Splitting.Free(url, "v=")
  {
    var parts := Splitting.Split(url, "v=");
    Splitting.SecondPiece(url, "v=");
    if |parts| < 2 then Failure(IndexError)
    else Success(Splitting.Split(parts[1], "&")[0])
  }

  /** The video id is the text right after the first `v=` of the URL, up to the next `&`,
      the next `v=` or the end of the URL, whichever comes first. */
  lemma VideoIdIsParameter(url: string)
    requires VideoId(url).Success?
    ensures Splitting.Find(url, "v=").Some?
    ensures var i, id := Splitting.Find(url, "v=").value, VideoId(url).value;
      && Splitting.OccursAt(url, i, "v=")
      && (forall k :: 0 <= k < i ==> !Splitting.OccursAt(url, k, "v="))
      && i + 2 + |id| <= |url| && url[i + 2..i + 2 + |id|] == id
      && Splitting.Free(id, "&") && Splitting.Free(id, "v=")
      && (i + 2 + |id| == |url| || url[i + 2 + |id|] == '&' || Splitting.OccursAt(url, i + 2 + |id|, "v="))
  {
    Splitting.SecondPiece(url, "v=");
    Splitting.FindSpec(url, "v=");
    var i := Splitting.Find(url, "v=").value;
    var rest := url[i + 2..];
    var param := Splitting.Split(rest, "v=")[0];
    var id := Splitting.Split(param, "&")[0];
    assert VideoId(url).value == id;
    Splitting.FirstPieceIsPrefix(rest, "v=");
    Splitting.FirstPieceIsPrefix(param, "&");
    Splitting.FreePrefix(param, "v=", |id|);
    ParameterEnd(url, i + 2, param, id);
  }

  /** A prefix `id` of a prefix `param` of `url[j..]`, each ending where the next separator
      or the end of what it is cut from begins, sits at `j` in `url` and ends there too. */
  lemma ParameterEnd(url: string, j: nat, param: string, id: string)
    requires j <= |url|
    requires |param| <= |url| - j && url[j..][..|param|] == param
    requires |param| == |url| - j || Splitting.OccursAt(url[j..], |param|, "v=")
    requires |id| <= |param| && param[..|id|] == id
    requires |id| == |param| || Splitting.OccursAt(param, |id|, "&")
    ensures j + |id| <= |url| && url[j..j + |id|] == id
    ensures j + |id| == |url| || url[j + |id|] == '&' || Splitting.OccursAt(url, j + |id|, "v=")
  {
    assert url[j..j + |id|] == url[j..][..|param|][..|id|];
    if |id| < |param| {
      assert param[|id|..|id| + 1] == "&";
      assert url[j + |id|] == param[|id|];
    } else if |param| < |url| - j {
      Splitting.OccursInSuffix(url, j, |param|, "v=");
    }
  }

  // ---------------------------------------------------------------- PDF file name

  /** `assignment.pdf_path.split('/')[-1] if assignment.pdf_path else None`. */
  function PdfFilename(path: Option<string>): (name: Option<string>)
    ensures name.None? <==> !Truthy(path)
  {
    if Truthy(path) then
      var parts := Splitting.Split(path.value, "/");
      Some(parts[|parts| - 1])
    else None
  }

  /** The file name is the part of the path after its last `/`: a suffix of the path
      without any `/`, preceded by a `/` unless it is the whole path, which happens
      exactly when the path has no `/`. */
  lemma PdfFilenameIsBaseName(path: Option<string>)
    requires Truthy(path)
    ensures var p, name := path.value, PdfFilename(path).value;
      && |name| <= |p| && p[|p| - |name|..] == name
      && Splitting.Free(name, "/")
      && (|name| < |p| ==> p[|p| - |name| - 1] == '/')
      && (|name| == |p| <==> Splitting.Free(p, "/"))
  {
    var p := path.value;
    Splitting.LastPieceOfSplit(p, "/");
    Splitting.LastPieceIsSuffix(p, "/");
    Splitting.LastPieceFree(p, "/");
    Splitting.LastPieceWhole(p, "/");
    var name := Splitting.LastPiece(p, "/");
    assert PdfFilename(path).value == name;
    if |name| < |p| {
      var k := |p| - |name| - 1;
      assert Splitting.OccursAt(p, k, "/");
      assert p[k..k + 1] == "/";
    }
  }
}
