/**
 * The logic of the two QR scanner screens: the camera-permission tri-state,
 * the acceptance of a scanned machine id (the first barcode's raw value,
 * trimmed, matched against the screen's id pattern), the latch that lets at
 * most one id through, and the torch button.
 */
module ScannerScreen {
  import opened Wrappers
  import opened KotlinText

  // ---- Acceptance ----

  /**
   * The id patterns: `^[A-Za-z0-9._-]{3,}$` on the presentation scanner and
   * `^[A-Z0-9_]{3,}$` on the ui scanner, applied with a whole-string match.
   */
  datatype IdPattern = Lenient | Strict

  predicate IsAsciiUpper(c: char) { 'A' <= c <= 'Z' }

  predicate IsAsciiLetter(c: char) { IsAsciiUpper(c) || 'a' <= c <= 'z' }

  /** The pattern's character class. */
  predicate InClass(p: IdPattern, c: char) {
    match p
    case Lenient => IsAsciiLetter(c) || IsDigit(c) || c == '.' || c == '_' || c == '-'
    case Strict => IsAsciiUpper(c) || IsDigit(c) || c == '_'
  }

  /** A whole-string match: three or more characters, all in the class. */
  predicate Matches(p: IdPattern, s: string) {
    |s| >= 3 && forall i :: 0 <= i < |s| ==> InClass(p, s[i])
  }

  /** Every id the ui scanner accepts, the presentation scanner accepts too. */
  lemma StrictImpliesLenient(s: string)
    requires Matches(Strict, s)
    ensures Matches(Lenient, s)
  {
  }

  /** The converse fails: lower case and '.' pass only the presentation scanner. */
  lemma LenientDoesNotImplyStrict()
    ensures Matches(Lenient, "ab.c") && !Matches(Strict, "ab.c")
  {
    assert !InClass(Strict, "ab.c"[0]);
  }

  /** A barcode as decoded; its raw value may be absent. */
  datatype Barcode = Barcode(rawValue: Option<string>)

  /** `barcodes.firstOrNull()?.rawValue?.trim()`. */
  function Candidate(barcodes: seq<Barcode>): (v: Option<string>)
    ensures v.Some? <==> |barcodes| > 0 && barcodes[0].rawValue.Some?
    ensures v.Some? ==> v.value == Trim(barcodes[0].rawValue.value)
    ensures v.Some? ==> |v.value| <= |barcodes[0].rawValue.value|
    ensures v.Some? ==> (v.value == [] <==> IsBlank(barcodes[0].rawValue.value))
    ensures v.Some? && v.value != [] ==> !IsWhitespace(v.value[0]) && !IsWhitespace(v.value[|v.value| - 1])
  {
    if |barcodes| > 0 && barcodes[0].rawValue.Some? then Some(Trim(barcodes[0].rawValue.value)) else None
  }

  /**
   * The id a decoded frame yields, if any: the candidate when it is non-empty
   * and matches. Only the first barcode counts; later ones are never looked at.
   */
  function AcceptedId(p: IdPattern, barcodes: seq<Barcode>): (id: Option<string>)
    ensures id.Some? <==> Candidate(barcodes).Some? && Matches(p, Candidate(barcodes).value)
    ensures id.Some? ==> id == Candidate(barcodes) && |id.value| >= 3
    ensures id.Some? ==> forall i :: 0 <= i < |id.value| ==> !IsWhitespace(id.value[i])
  {
    var value := Candidate(barcodes);
    if value.Some? && value.value != [] && Matches(p, value.value) then
      MatchHasNoWhitespace(p, value.value);
      value
    else None
  }

  lemma ClassHasNoWhitespace(p: IdPattern, c: char)
    requires InClass(p, c)
    ensures !IsWhitespace(c)
  {
  }

  /** A string that matches either pattern holds no whitespace at all. */
  lemma MatchHasNoWhitespace(p: IdPattern, s: string)
    requires Matches(p, s)
    ensures forall i :: 0 <= i < |s| ==> !IsWhitespace(s[i])
  {
    forall i | 0 <= i < |s|
      ensures !IsWhitespace(s[i])
    {
      ClassHasNoWhitespace(p, s[i]);
    }
  }

  /** Only the first barcode decides: whatever follows it does not change the outcome. */
  lemma AcceptedIdIgnoresLaterBarcodes(p: IdPattern, first: Barcode, rest1: seq<Barcode>, rest2: seq<Barcode>)
    ensures AcceptedId(p, [first] + rest1) == AcceptedId(p, [first] + rest2)
  {
  }

  /** Blank padding around a matching id is trimmed away, and the bare id is accepted. */
  lemma PaddedIdAccepted(p: IdPattern, before: string, id: string, after: string, rest: seq<Barcode>)
    requires IsBlank(before) && IsBlank(after) && Matches(p, id)
    ensures AcceptedId(p, [Barcode(Some(before + id + after))] + rest) == Some(id)
  {
    ClassHasNoWhitespace(p, id[0]);
    ClassHasNoWhitespace(p, id[|id| - 1]);
    TrimRemovesPadding(before, id, after);
  }

  // ---- The camera preview ----

  /** What the analyzer receives: a frame without an image, a decoded frame, or a frame whose decoding failed. */
  datatype Frame = NoImage | Decoded(barcodes: seq<Barcode>) | DecodeFailed

  /**
   * The camera preview's state: the `handled` latch, the torch flag, whether
   * the camera is bound and the torch state last sent to it, and the ids
   * passed on to `onScanned`.
   */
  class CameraPreview {
    const pattern: IdPattern
    var handled: bool
    var torchEnabled: bool
    var cameraBound: bool
    var cameraTorch: bool
    var scanned: seq<string>

    /**
     * At most one id is ever passed on, it matches the pattern, and the latch
     * is set exactly when it has been; once the camera is bound its torch is
     * in the state the button shows.
     */
    ghost predicate Valid()
      reads this
    {
      && |scanned| <= 1
      && (handled <==> |scanned| == 1)
      && (forall i :: 0 <= i < |scanned| ==> Matches(pattern, scanned[i]))
      && (cameraBound ==> cameraTorch == torchEnabled)
    }

    constructor (pattern: IdPattern)
      ensures Valid() && this.pattern == pattern
      ensures !handled && !torchEnabled && !cameraBound && scanned == []
    {
      this.pattern := pattern;
      handled := false;
      torchEnabled := false;
      cameraBound := false;
      cameraTorch := false;
      scanned := [];
    }

    /**
     * The analyzer on one frame. Once the latch is set frames are dropped
     * unprocessed; otherwise a decoded frame with an accepted id sets the latch
     * and passes the id on, and every other frame changes nothing.
     */
    method Analyze(frame: Frame)
      requires Valid()
      modifies this
      ensures Valid()
      ensures old(handled) ==> unchanged(this)
      ensures !old(handled) && frame.Decoded? && AcceptedId(pattern, frame.barcodes).Some? ==>
        handled && scanned == [AcceptedId(pattern, frame.barcodes).value]
        && torchEnabled == old(torchEnabled) && cameraBound == old(cameraBound) && cameraTorch == old(cameraTorch)
      ensures !(frame.Decoded? && AcceptedId(pattern, frame.barcodes).Some?) ==> unchanged(this)
    {
      if handled {
        return;
      }
      match frame
      case NoImage =>
      case DecodeFailed =>
      case Decoded(barcodes) =>
        var id := AcceptedId(pattern, barcodes);
        if id.Some? {
          handled := true;
          scanned := scanned + [id.value];
        }
    }

    /** Binding the camera use cases; when binding succeeds the torch is set to the button's state. */
    method BindCamera(succeeded: bool)
      requires Valid()
      modifies this
      ensures Valid()
      ensures !succeeded ==> unchanged(this)
      ensures succeeded ==> cameraBound && cameraTorch == torchEnabled
      ensures succeeded ==> handled == old(handled) && torchEnabled == old(torchEnabled) && scanned == old(scanned)
    {
      if succeeded {
        cameraBound := true;
        cameraTorch := torchEnabled;
      }
    }

    /** The torch button: negates the flag and, when the camera is bound, sends the new state to it. */
    method ToggleTorch()
      requires Valid()
      modifies this
      ensures Valid()
      ensures torchEnabled == !old(torchEnabled)
      ensures cameraTorch == (if cameraBound then torchEnabled else old(cameraTorch))
      ensures handled == old(handled) && scanned == old(scanned) && cameraBound == old(cameraBound)
    {
      torchEnabled := !torchEnabled;
      if cameraBound {
        cameraTorch := torchEnabled;
      }
    }
  }

  /** Two accepted frames in a row: only the first id is passed on. */
  method SecondIdIsDropped(pattern: IdPattern, first: seq<Barcode>, second: seq<Barcode>) returns (preview: CameraPreview)
    requires AcceptedId(pattern, first).Some? && AcceptedId(pattern, second).Some?
    ensures fresh(preview) && preview.Valid() && preview.scanned == [AcceptedId(pattern, first).value]
  {
    preview := new CameraPreview(pattern);
    preview.Analyze(Decoded(first));
    preview.Analyze(Decoded(second));
  }

  // ---- Camera permission ----

  /** `hasPermission`: not yet known, denied, or granted. */
  datatype Permission = Unknown | Denied | Granted

  /** What the screen shows. */
  datatype ScannerContent = Nothing | Rationale | Preview

  /** Unknown shows nothing, denied the rationale with its button, granted the camera preview. */
  function ContentFor(p: Permission): (content: ScannerContent)
    ensures content == Nothing <==> p == Unknown
    ensures content == Rationale <==> p == Denied
    ensures content == Preview <==> p == Granted
  {
    match p
    case Unknown => Nothing
    case Denied => Rationale
    case Granted => Preview
  }

  /** The permission state and the number of permission requests launched. */
  class CameraPermission {
    var hasPermission: Permission
    var requests: nat

    constructor ()
      ensures hasPermission == Unknown && requests == 0
      ensures ContentFor(hasPermission) == Nothing
    {
      hasPermission := Unknown;
      requests := 0;
    }

    /** The first composition checks the permission and asks for it only when it is missing. */
    method InitialCheck(granted: bool)
      modifies this
      ensures hasPermission == (if granted then Granted else Denied)
      ensures requests == old(requests) + (if granted then 0 else 1)
      ensures ContentFor(hasPermission) == (if granted then Preview else Rationale)
    {
      hasPermission := if granted then Granted else Denied;
      if hasPermission == Denied {
        requests := requests + 1;
      }
    }

    /** The rationale's button asks again. */
    method OnRequestClicked()
      requires ContentFor(hasPermission) == Rationale
      modifies this
      ensures hasPermission == old(hasPermission) && requests == old(requests) + 1
    {
      requests := requests + 1;
    }

    /** The answer to a request. */
    method OnPermissionResult(granted: bool)
      modifies this
      ensures hasPermission == (if granted then Granted else Denied) && requests == old(requests)
      ensures ContentFor(hasPermission) == (if granted then Preview else Rationale)
    {
      hasPermission := if granted then Granted else Denied;
    }
  }
}
