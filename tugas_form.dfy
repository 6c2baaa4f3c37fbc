/** TugasForm: the form object behind the task pages, with its image checks. */
module Forms {
  import opened Common
  import Entities

  /** Content types an uploaded proof image may have. */
  const AllowedImageTypes: set<string> := {"image/jpeg", "image/png", "image/webp"}

  /** The value of every field of a form. */
  datatype FormFields = FormFields(
    id: Option<Uuid>,
    judul: Option<string>,
    mataKuliah: Option<string>,
    deskripsi: Option<string>,
    deadline: Option<Instant>,
    fileGambar: Option<MultipartFile>,
    existingFoto: Option<string>,
    status: Option<string>)

  /** The form `new TugasForm()` gives: status "Belum Selesai", every other field null. */
  const FreshForm := FormFields(None, None, None, None, None, None, None, Some(Entities.DefaultStatus))

  class TugasForm {
    var id: Option<Uuid>
    var judul: Option<string>
    var mataKuliah: Option<string>
    var deskripsi: Option<string>
    var deadline: Option<Instant>
    var fileGambar: Option<MultipartFile>
    var existingFoto: Option<string>
    var status: Option<string>

    function Fields(): FormFields
      reads this
    {
      FormFields(id, judul, mataKuliah, deskripsi, deadline, fileGambar, existingFoto, status)
    }

    constructor ()
      ensures Fields() == FreshForm
    {
      id, judul, mataKuliah, deskripsi, deadline := None, None, None, None, None;
      fileGambar, existingFoto := None, None;
      status := Some(Entities.DefaultStatus);
    }

    method SetId(x: Option<Uuid>)
      modifies this
      ensures Fields() == old(Fields()).(id := x)
    {
      id := x;
    }

    method SetJudul(x: Option<string>)
      modifies this
      ensures Fields() == old(Fields()).(judul := x)
    {
      judul := x;
    }

    method SetMataKuliah(x: Option<string>)
      modifies this
      ensures Fields() == old(Fields()).(mataKuliah := x)
    {
      mataKuliah := x;
    }

    method SetDeskripsi(x: Option<string>)
      modifies this
      ensures Fields() == old(Fields()).(deskripsi := x)
    {
      deskripsi := x;
    }

    method SetDeadline(x: Option<Instant>)
      modifies this
      ensures Fields() == old(Fields()).(deadline := x)
    {
      deadline := x;
    }

    method SetFileGambar(x: Option<MultipartFile>)
      modifies this
      ensures Fields() == old(Fields()).(fileGambar := x)
    {
      fileGambar := x;
    }

    method SetExistingFoto(x: Option<string>)
      modifies this
      ensures Fields() == old(Fields()).(existingFoto := x)
    {
      existingFoto := x;
    }

    method SetStatus(x: Option<string>)
      modifies this
      ensures Fields() == old(Fields()).(status := x)
    {
      status := x;
    }

    /** hasImage: a file was attached and it is not empty. */
    predicate HasImage()
      reads this
    {
      HasContent(fileGambar)
    }

    /** isValidImageFormat: no image passes; an image passes exactly when its
        content type is known and one of the three allowed image types. */
    predicate IsValidImageFormat()
      reads this
    {
      if !HasImage() then true
      else
        var t := fileGambar.value.contentType;
        t.Some? && (t.value == "image/jpeg" || t.value == "image/png" || t.value == "image/webp")
    }
  }

  /** A form without an image always passes; an image passes exactly when
      its content type is known and is one of the allowed image types. */
  lemma ImageFormatOnlyChecksImages(form: TugasForm)
    ensures !form.HasImage() ==> form.IsValidImageFormat()
    ensures form.HasImage() && form.IsValidImageFormat() ==>
      form.fileGambar.value.contentType.Some? && form.fileGambar.value.contentType.value in AllowedImageTypes
    ensures form.HasImage() && form.fileGambar.value.contentType.Some? &&
            form.fileGambar.value.contentType.value in AllowedImageTypes ==>
      form.IsValidImageFormat()
  {
  }

  /** Only the content type decides: the file name and the size of a
      non-empty upload play no part. */
  lemma ImageFormatDependsOnTypeOnly(f1: TugasForm, f2: TugasForm)
    requires f1.HasImage() && f2.HasImage()
    requires f1.fileGambar.value.contentType == f2.fileGambar.value.contentType
    ensures f1.IsValidImageFormat() == f2.IsValidImageFormat()
  {
  }

  /** A JPEG is accepted; an image of any other type, or of unknown type, is
      refused; "no image" is accepted. */
  lemma ImageFormatExamples(form: TugasForm)
    ensures form.fileGambar == Some(MultipartFile(Some("a.pdf"), Some("application/pdf"), 10)) ==> !form.IsValidImageFormat()
    ensures form.fileGambar == Some(MultipartFile(Some("a.png"), None, 10)) ==> !form.IsValidImageFormat()
    ensures form.fileGambar == Some(MultipartFile(Some("a.jpg"), Some("image/jpeg"), 10)) ==> form.IsValidImageFormat()
    ensures form.fileGambar == Some(MultipartFile(Some("a.png"), Some("image/png"), 0)) ==> form.IsValidImageFormat()
    ensures form.fileGambar.None? ==> form.IsValidImageFormat()
  {
  }
}
