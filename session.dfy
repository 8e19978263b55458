/**
 * The page's session state and the handlers that change it: the badge
 * template (loaded once at start-up), the uploaded photo (replaced only by a
 * photo that passed validation and decoded), and the name of the last badge
 * generated (used later for the download file name).
 *
 * Browser callbacks become methods: the template's `onload`, the file input's
 * `change` handler, the outcome of reading and decoding the chosen file, the
 * "generate" button and the "download" button. Alerts become error values.
 */
module Badge {
  import opened Text
  import FileName
  import FontFit

  datatype Option<T> = None | Some(value: T)
  datatype Result<T, E> = Success(value: T) | Failure(error: E)

  /** A decoded image, identified by the data URL it was decoded from. */
  datatype Photo = Photo(dataUrl: string)

  /** What the browser reports about a chosen file. */
  datatype FileInfo = FileInfo(name: string, mimeType: string, size: nat)

  /** The largest accepted upload: 5 MiB. */
  const MaxUploadBytes: nat := 5 * 1024 * 1024

  /** The alerts of the upload path. */
  datatype UploadError = NotAnImage | TooLarge | ReadFailed | DecodeFailed

  /** What the `change` handler does with the file input's first file. */
  datatype Selection = NoFile | Rejected(reason: UploadError) | Reading(file: FileInfo)

  /** How the asynchronous read and decode of an accepted file ended. */
  datatype LoadOutcome = Decoded(photo: Photo) | ImageError | ReaderError

  /** The alerts of `generateAndPreview`, in the order they are checked. */
  datatype PreviewError = NameMissing | PhotoMissing | TemplateLoading

  /** The alert of `downloadBadge` when the canvas element is missing. */
  datatype DownloadError = CanvasMissing

  /** What `generateBadge` is asked to draw: the name, the photo and the font size it settles on. */
  datatype Composition = Composition(name: string, photo: Photo, fontSize: int)

  /** `type.startsWith('image/')` (case-sensitive, as in JavaScript). */
  predicate IsImageType(mimeType: string) {
    |mimeType| >= 6 && mimeType[..6] == "image/"
  }

  class Session {
    var uploadedImage: Option<Photo>
    /** Whether the badge template image has finished loading. */
    var badgeTemplate: bool
    var userName: string

    /** The state when the script starts: no photo, template still loading, no name. */
    constructor ()
      ensures uploadedImage == None && !badgeTemplate && userName == ""
    {
      uploadedImage := None;
      badgeTemplate := false;
      userName := "";
    }

    /** The template's `onload`; its `onerror` only logs, so it is no event here. */
    method TemplateLoaded()
      modifies this`badgeTemplate
      ensures badgeTemplate
    {
      badgeTemplate := true;
    }

    /**
     * The synchronous part of the `change` handler: no file does nothing; the
     * type is checked before the size; an accepted file starts reading. No
     * session state changes here, whatever the outcome.
     */
    method SelectFile(file: Option<FileInfo>) returns (r: Selection)
      ensures r == NoFile <==> file == None
      ensures r == Rejected(NotAnImage) <==> file.Some? && !IsImageType(file.value.mimeType)
      ensures r == Rejected(TooLarge) <==>
                file.Some? && IsImageType(file.value.mimeType) && file.value.size > MaxUploadBytes
      ensures r.Reading? <==>
                file.Some? && IsImageType(file.value.mimeType) && file.value.size <= MaxUploadBytes
      ensures r.Reading? ==> r.file == file.value
    {
      if file == None {
        return NoFile;
      }
      var f := file.value;
      if !IsImageType(f.mimeType) {
        return Rejected(NotAnImage);
      }
      if f.size > MaxUploadBytes {
        return Rejected(TooLarge);
      }
      r := Reading(f);
    }

    /**
     * The end of an accepted upload: the reader's `onload` followed by the
     * image's `onload` or `onerror`, or the reader's `onerror`. Only a decoded
     * image replaces the photo; every failure keeps the previous one.
     */
    method FinishUpload(outcome: LoadOutcome) returns (err: Option<UploadError>)
      modifies this`uploadedImage
      ensures outcome.Decoded? ==> uploadedImage == Some(outcome.photo) && err == None
      ensures outcome == ImageError ==> uploadedImage == old(uploadedImage) && err == Some(DecodeFailed)
      ensures outcome == ReaderError ==> uploadedImage == old(uploadedImage) && err == Some(ReadFailed)
    {
      match outcome {
        case Decoded(photo) =>
          uploadedImage := Some(photo);
          err := None;
        case ImageError =>
          err := Some(DecodeFailed);
        case ReaderError =>
          err := Some(ReadFailed);
      }
    }

    /**
     * A whole upload: the `change` handler on `file` and, when it starts
     * reading, the way that read ends. The photo changes exactly when the file
     * was accepted and decoded.
     */
    method Upload(file: Option<FileInfo>, outcome: LoadOutcome) returns (err: Option<UploadError>)
      modifies this`uploadedImage
      ensures err == None <==>
                (file == None ||
                 (IsImageType(file.value.mimeType) && file.value.size <= MaxUploadBytes && outcome.Decoded?))
      ensures if file.Some? && IsImageType(file.value.mimeType) && file.value.size <= MaxUploadBytes
                 && outcome.Decoded?
              then uploadedImage == Some(outcome.photo)
              else uploadedImage == old(uploadedImage)
    {
      var selection := SelectFile(file);
      match selection {
        case NoFile =>
          err := None;
        case Rejected(reason) =>
          err := Some(reason);
        case Reading(_) =>
          err := FinishUpload(outcome);
      }
    }

    /**
     * `generateAndPreview` on the text typed in the name field. It checks, in
     * order, that the trimmed name is non-empty, that a photo was uploaded and
     * that the template has loaded; only then does it store the trimmed name
     * and compose the badge, at the size the font search settles on.
     */
    method GenerateAndPreview(nameField: string, width: (string, int) -> real)
      returns (r: Result<Composition, PreviewError>)
      modifies this`userName
      ensures Trim(nameField) == [] ==> r == Failure(NameMissing)
      ensures Trim(nameField) != [] && uploadedImage == None ==> r == Failure(PhotoMissing)
      ensures Trim(nameField) != [] && uploadedImage != None && !badgeTemplate ==>
                r == Failure(TemplateLoading)
      ensures r.Failure? ==> userName == old(userName)
      ensures r.Success? <==> Trim(nameField) != [] && uploadedImage != None && badgeTemplate
      ensures r.Success? ==>
                && userName == Trim(nameField) != []
                && r.value.name == userName
                && uploadedImage == Some(r.value.photo)
                && FontFit.IsChosenSize(userName, width, r.value.fontSize)
    {
      var name := Trim(nameField);
      if name == [] {
        return Failure(NameMissing);
      }
      if uploadedImage == None {
        return Failure(PhotoMissing);
      }
      if !badgeTemplate {
        return Failure(TemplateLoading);
      }
      userName := name;
      var fontSize, _, _ := FontFit.FitFontSize(name, width);
      r := Success(Composition(name, uploadedImage.value, fontSize));
    }

    /**
     * The file name `downloadBadge` gives the exported PNG, on either export
     * path, or the alert when the canvas element is missing.
     */
    method DownloadFileName(canvasFound: bool) returns (r: Result<string, DownloadError>)
      ensures !canvasFound ==> r == Failure(CanvasMissing)
      ensures canvasFound ==> r == Success(FileName.BadgeFileName(userName))
    {
      if !canvasFound {
        return Failure(CanvasMissing);
      }
      r := Success(FileName.BadgeFileName(userName));
    }
  }
}
