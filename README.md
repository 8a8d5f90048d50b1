# PCB defect detector: upload checks, resize, annotation plan and summary

A Dafny model of the decision logic of the PCB defect detector's Flask
service (`app.py`). The service accepts an uploaded image of a printed
circuit board, checks the upload, normalises the image's size, obtains a
fixed list of defect records, draws each record's box and label on the
image, and answers with the records and a summary. The model covers the
parts of that flow that are decisions rather than library calls:

- `extensions.dfy` (module `Extensions`): `allowed_file`, the extension
  filter. A name is accepted exactly when it has a dot and the text after
  its last dot, lower-cased, is one of `png`, `jpg`, `jpeg`, `bmp`, `tiff`.
- `upload.dfy` (module `Upload`): the early-return chain of `upload_image`
  over an abstract request (the `file` part if present, with its name, its
  size in bytes and whether it decodes), and the JSON answer built from it.
  The chain is proved equal to a "first failing check decides" rule.
- `preprocess.dfy` (module `Preprocess`): the resize branch of
  `preprocess_image`, written as a method that follows the source's steps
  (scale = min(1024/w, 1024/h), each side truncated). It is proved equal to
  a reference target, "scale the longer side to exactly 1024", over exact
  rationals.
- `annotate.dfy` (module `Annotate`): the colour table and the loop of
  `draw_detections`. The method emits the ordered list of OpenCV drawing
  calls (box outline, filled label background, white label text) instead
  of pixels, and is proved equal to a specification function `Plan`.
- `summary.dfy` (module `Summary`): the `summary` object (count, distinct
  types, mean confidence with 0 for an empty list).
- `defects.dfy` (`Defects`) holds the defect record; `options.dfy`
  (`Options`) holds the `Option` type that stands for Python's `None`.

Three behaviours of the code are worth stating plainly:

- The resize truncates the new sides with `int(...)` (app.py:44-45) rather
  than rounding them, and so does the model.
- The label background is not clamped to the image (app.py:118-119).
  `Annotate.LabelNotClamped` shows it can start at negative y when the box
  is near the top.
- A file that does not decode gets the same status 400 as the validation
  errors (app.py:168-170).

The model also brings out one edge of the resize arithmetic. Truncation can
take the shorter side of a very elongated image to zero: 3000 x 1 is asked
to become 1024 x 0 (`Preprocess.FitCanCollapseShortSide`). `cv2.resize` rejects
such a target and the service answers status 500; the model does not
produce that answer (see `Upload.HandleUpload` under "Left out").

## Model

| member | source | states |
|---|---|---|
| `Extensions.Lower` | app.py:32 | the name lower-cased character by character, same length; only ASCII letters change |
| `Extensions.LastIndexOf` | app.py:32 | none exactly when the character is absent; otherwise a position holding it with no further occurrence after it |
| `Extensions.RSplitOnce` | app.py:32 | `rsplit('.', 1)` on a name with a dot: head, dot and tail join back to the name, and the tail holds no dot |
| `Extensions.RSplitOnceUnique` | app.py:32 | the split at the last dot is the only decomposition head + "." + tail with a dot-free tail |
| `Extensions.AllowedFile` | app.py:30-32 | an accepted name always contains a dot |
| `Extensions.NoDotRejected` | app.py:32 | a name without any dot is rejected |
| `Extensions.AllowedFileDecided` | app.py:30-32 | head + "." + ext (ext dot-free) is accepted exactly when ext lower-cased is in the allowed set, whatever the head holds |
| `Extensions.AllowedFileCaseInsensitive` | app.py:32 | lower-casing the whole name first never changes the verdict |
| `Extensions.AcceptedExamples` | app.py:32 | `a.tar.png` is accepted (only the last suffix counts) and so is `BOARD.JPG` (case does not matter) |
| `Extensions.LastSuffixDecides` | app.py:32 | `a.png.exe` is rejected: an allowed earlier suffix does not help |
| `Extensions.TrailingDotRejected` | app.py:23 | a name ending in a dot has an empty suffix, which is not allowed |
| `Upload.Validate` | app.py:143-170 | a rejection always carries one of the five messages of the chain |
| `Upload.FirstFailure` | app.py:143-170 | the first-failure rule proceeds exactly when every check passes |
| `Upload.FirstFailureDecides` | app.py:143-170 | the earliest failing check's message is the answer, whatever later checks say |
| `Upload.ValidateIsFirstFailure` | app.py:143-170 | a missing file part is rejected first; otherwise the chain equals the first-failure rule over empty name, extension, size, decodability, in that order |
| `Upload.ProceedIff` | app.py:143-170 | an upload proceeds exactly when the file part is present, its name is non-empty and allowed, its size is at most 16 MiB and it decodes |
| `Upload.SizeBoundary` | app.py:153-159 | a file of exactly 16 MiB passes; 16 MiB + 1 byte and 17 MiB are rejected as too large, whether or not they would decode |
| `Upload.DecodeNotConsultedOnValidationError` | app.py:143-170 | when the name, extension or size check rejects, decodability does not change the answer, which is never the decoding error |
| `Upload.EmptyNameReportedFirst` | app.py:147-151 | an empty name is reported as not selected although it would also fail the extension check |
| `Upload.HandleUpload` | app.py:138-198 | success exactly when validation proceeds, carrying the detections and their `Summarize` summary; otherwise status 400 with the chain's message |
| `Preprocess.PreprocessImage` | app.py:34-56 | none exactly for an undecodable image; otherwise the truncated exact fit, computed via min(1024/w, 1024/h) |
| `Preprocess.ScaleIsLongerSide` | app.py:43-45 | min(1024/w, 1024/h) is 1024 over the longer side, so each new side is side * 1024 / longer side |
| `Preprocess.ExactFitBounds` | app.py:41-46 | exact target sides are at most 1024, the longer side of an oversized image becomes exactly 1024, and the aspect ratio is kept exactly |
| `Preprocess.FitChangesIffOversized` | app.py:42 | the shape changes if and only if width or height exceeds 1024 |
| `Preprocess.FittedShapeBounds` | app.py:43-46 | both integer sides are at most 1024, the longer one is 1024 for an oversized image, and each is less than one pixel below the exact target |
| `Preprocess.FitLandscapeExample` | app.py:41-46 | 2000 x 1000 becomes 1024 x 512 |
| `Preprocess.FitAtBoundExample` | app.py:42 | 1024 x 1024 is left unchanged (the test is strict) |
| `Preprocess.FitCanCollapseShortSide` | app.py:43-46 | 3000 x 1 is asked to become 1024 x 0 |
| `Annotate.ColorFor` | app.py:97-110 | a valid BGR triple; the table's colour for the five known types, and the default (0,255,0) exactly for every other type |
| `Annotate.DrawDetections` | app.py:90-123 | none exactly when the image does not decode; otherwise the calls emitted by the loop are `Plan` of the detections |
| `Annotate.PlanLength` | app.py:105-121 | three calls per detection |
| `Annotate.PlanAt` | app.py:105-121 | the calls at positions 3i, 3i+1, 3i+2 are the i-th detection's calls: input order is kept |
| `Annotate.PlanAppend` | app.py:105 | drawing a concatenation of lists is drawing each part in turn |
| `Annotate.EmptyPlan` | app.py:105 | an empty detection list draws nothing |
| `Annotate.LabelGeometry` | app.py:110-121 | outline = bbox in the type's colour, thickness 2; filled background from (x1, y1-h-10) to (x1+w, y1) on the box's top edge; white text at (x1, y1-5) inside the background |
| `Annotate.LabelNotClamped` | app.py:118-119 | a box closer to the top than the label's height + 10 gets a background starting at negative y |
| `Summary.DistinctKinds` | app.py:193 | every type present exactly once and nothing else; never longer than the list |
| `Summary.Summarize` | app.py:191-195 | total is the number of detections, types are distinct and exactly those present, the average is 0 for an empty list and otherwise the sum of confidences divided by the count |
| `Summary.SumBounds` | app.py:194 | n confidences in [lo, hi] sum to between n*lo and n*hi |
| `Summary.AverageWithinBounds` | app.py:194 | the average lies between the bounds of the confidences, so in [0, 1] for confidences in [0, 1] |
| `Summary.SingleKindReportedOnce` | app.py:193 | a list whose detections share one type reports that type once |
| `Summary.SimulatedSummary` | app.py:67-86 | the three simulated records summarise to 3 defects, the three types, and mean (0.89+0.95+0.76)/3 |

## Left out

- Flask routing, CORS, static file serving and the constant health and models endpoints (app.py:133-136, app.py:203-231): framework glue.
- File I/O (app.py:27-28, app.py:154-164, app.py:169, app.py:183): the upload's size and whether it decodes are fields of the request; saving the file, removing the temporary file and `secure_filename` are not modelled.
- OpenCV and encoding calls (app.py:36, app.py:46-54, app.py:117-121, app.py:125-129): decoding is reduced to an optional shape; resampling, CLAHE, colour conversions, pixel effects of `rectangle`/`putText`, JPEG and base64 encoding are foreign code. `getTextSize` is the caller-supplied `measure`.
- `simulate_pcb_detection` (app.py:58-88): the detections are an input of `Upload.HandleUpload`; its fractional bbox arithmetic is not modelled. `Summary.SimulatedSummary` uses only its types and confidences.
- Floating point: scale, new sides and the mean are exact rationals. Under IEEE doubles `w * (1024/w)` can fall just below 1024 and truncate to 1023; the model does not show this.
- Annotate.Label: the `:.2f` formatting of the confidence is the caller-supplied `fmt`.
- Extensions.Lower: covers ASCII letters only. Python lower-cases Unicode too, but the only non-ASCII character that lower-cases to an ASCII letter is the Kelvin sign (to `k`), which occurs in no allowed extension, so the verdict is the same.
- Preprocess.PreprocessImage: requires a decoded image to have at least one pixel per side, as every image `cv2.imread` returns does.
- Summary.DistinctKinds: Python's set order is unspecified; the model keeps first occurrences and promises only membership and no duplicates.
- Upload.HandleUpload: answers `Success` for every decodable image that passes validation. An image so elongated that its shorter side truncates to 0 (3000 x 1 gives 1024 x 0, `Preprocess.FitCanCollapseShortSide`) makes `cv2.resize` at app.py:46 raise, and the service answers status 500 (app.py:200-201); the model does not produce that 500 answer.
- The catch-all handler returning status 500 (app.py:200-201) and server start-up (app.py:233-239).
