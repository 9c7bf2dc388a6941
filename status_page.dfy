/**
 * The status page's handlers: which contact's statuses the viewer shows and
 * at which index, the `viewStatus` calls it makes, and the create dialog.
 */
module StatusPage {
  import opened Common
  import opened StatusStore
  import opened StatusPreview

  /** A status the dialog submits to the store's `createStatus`. */
  datatype Submission = Submission(content: string, file: Option<string>)

  class StatusPage {
    /** `previewContact` and `currentStatusIndex`. */
    var preview: Option<Group>
    var index: int
    /** The ids passed to `viewStatus`, in call order. */
    var viewed: seq<nat>
    /** The create dialog: `newStatus`, `selectedFile` (by name),
        `filePreview`, `showCreateModel`. */
    var newStatus: string
    var selectedFile: Option<string>
    var filePreview: Option<string>
    var showCreateModel: bool
    /** The calls to `createStatus`, in order. */
    var submitted: seq<Submission>

    /** The index is never negative. */
    ghost predicate Valid()
      reads this
    {
      index >= 0
    }

    constructor ()
      ensures Valid()
      ensures preview.None? && index == 0 && viewed == [] && submitted == []
      ensures newStatus == "" && selectedFile.None? && filePreview.None? && !showCreateModel
    {
      preview, index, viewed := None, 0, [];
      newStatus, selectedFile, filePreview, showCreateModel, submitted := "", None, None, false, [];
    }

    /** `handlePreviewClose`. */
    method HandlePreviewClose()
      modifies this`preview, this`index
      ensures Valid() && preview.None? && index == 0
    {
      preview := None;
      index := 0;
    }

    /** `handlePreviewNext`: nothing without a contact; the next status while
        there is one; otherwise the viewer closes. While the "next" arrow
        shows, it advances. */
    method HandlePreviewNext()
      requires Valid()
      modifies this`preview, this`index
      ensures Valid()
      ensures old(preview).None? ==> preview == old(preview) && index == old(index)
      ensures old(preview).Some? && old(index) < |old(preview).value.items| - 1 ==>
        preview == old(preview) && index == old(index) + 1
      ensures old(preview).Some? && old(index) >= |old(preview).value.items| - 1 ==>
        preview.None? && index == 0
      ensures ControlsShown(old(preview), old(index)).Rendered? && ControlsShown(old(preview), old(index)).next ==>
        preview == old(preview) && index == old(index) + 1
    {
      if preview.None? {
        return;
      }
      if index < |preview.value.items| - 1 {
        index := index + 1;
      } else {
        HandlePreviewClose();
      }
    }

    /** `handlePreviewPrev`: one status back, never below the first. */
    method HandlePreviewPrev()
      requires Valid()
      modifies this`index
      ensures Valid()
      ensures index == if old(index) - 1 > 0 then old(index) - 1 else 0
    {
      index := if index - 1 > 0 then index - 1 else 0;
    }

    /** `handleStatusPreview(contact, index)`: show the contact at the index,
        and report the status there as viewed only when there is one. */
    method HandleStatusPreview(contact: Option<Group>, at: nat)
      modifies this`preview, this`index, this`viewed
      ensures Valid() && preview == contact && index == at
      ensures CurrentStatus(contact, at).Some? ==> viewed == old(viewed) + [contact.value.items[at].id]
      ensures CurrentStatus(contact, at).None? ==> viewed == old(viewed)
    {
      preview := contact;
      index := at;
      if contact.Some? && at < |contact.value.items| {
        viewed := viewed + [contact.value.items[at].id];
      }
    }

    /** `handleCreateStatus`: nothing without text or a file; otherwise the
        dialog's content and file go to `createStatus`, and only when that
        does not throw is the dialog cleared and closed. */
    method HandleCreateStatus(createThrows: bool) returns (threw: bool)
      modifies this`newStatus, this`selectedFile, this`filePreview, this`showCreateModel, this`submitted
      ensures NothingToPost(old(newStatus), old(selectedFile)) ==>
        && !threw && submitted == old(submitted) && newStatus == old(newStatus)
        && selectedFile == old(selectedFile) && filePreview == old(filePreview) && showCreateModel == old(showCreateModel)
      ensures !NothingToPost(old(newStatus), old(selectedFile)) ==>
        submitted == old(submitted) + [Submission(old(newStatus), old(selectedFile))] && threw == createThrows
      ensures !NothingToPost(old(newStatus), old(selectedFile)) && !createThrows ==>
        newStatus == "" && selectedFile.None? && filePreview.None? && !showCreateModel
      ensures createThrows ==>
        && newStatus == old(newStatus) && selectedFile == old(selectedFile)
        && filePreview == old(filePreview) && showCreateModel == old(showCreateModel)
    {
      threw := false;
      var empty := NothingToPost(newStatus, selectedFile);
      if !empty {
        submitted := submitted + [Submission(newStatus, selectedFile)];
        threw := createThrows;
        if !createThrows {
          newStatus, selectedFile, filePreview, showCreateModel := "", None, None, false;
        }
      }
    }
  }

  /** The guard of `handleCreateStatus`: blank text and no file. */
  predicate NothingToPost(text: string, file: Option<string>) {
    Trim(text) == "" && file.None?
  }
}
