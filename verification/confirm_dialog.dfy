/**
 * The confirm dialog's state (ui/components/ConfirmDialog/useConfirmDialog.ts):
 * whether the dialog is open and the payload it asks about. The two state
 * cells are fields; `show` and `hide` update both, so the dialog is open
 * exactly while it holds a payload.
 */
module ConfirmDialog {
  import opened Prelude

  class Dialog<T> {
    var open: bool
    var payload: Option<T>

    /** `useState(false)` and `useState(null)`. */
    constructor ()
      ensures !open && payload == None
    {
      open := false;
      payload := None;
    }

    /** `show(nextPayload)`: the payload is replaced, whatever was there, and the dialog opens. */
    method Show(nextPayload: T)
      modifies this
      ensures open && payload == Some(nextPayload)
    {
      payload := Some(nextPayload);
      open := true;
    }

    /** `hide()`: closed, and the payload cleared. */
    method Hide()
      modifies this
      ensures !open && payload == None
    {
      open := false;
      payload := None;
    }
  }
}
