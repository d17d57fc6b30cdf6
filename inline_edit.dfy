/**
  The click-to-edit text (components/ui/InlineEdit.tsx): a two-state machine over whether the
  field is being edited and the text in the editor, reporting a changed, trimmed value to
  the parent.
*/
module InlineEdit {
  import opened Strings

  /** A reported value never starts or ends with white space. */
  predicate Tidy(t: string) {
    t != [] ==> !IsSpace(t[0]) && !IsSpace(t[|t| - 1])
  }

  class Editor {
    /** The `value` prop: the text the parent holds. */
    var value: string
    const multiline: bool
    var isEditing: bool
    var editValue: string
    /** The values handed to `onSave`, oldest first. */
    var saved: seq<string>

    constructor(value: string, multiline: bool)
      ensures forall i | 0 <= i < |saved| :: Tidy(saved[i])
      ensures this.value == value && this.multiline == multiline
      ensures !isEditing && editValue == value && saved == []
    {
      this.value := value;
      this.multiline := multiline;
      isEditing := false;
      editValue := value;
      saved := [];
    }

    /** A new `value` from the parent: the effect copies it into the editor. */
    method ValueChanged(v: string)
      modifies this
      ensures value == v && editValue == v
      ensures isEditing == old(isEditing) && saved == old(saved)
    {
      value := v;
      editValue := v;
    }

    /** A click on the text opens the editor. */
    method Begin()
      modifies this
      ensures isEditing
      ensures value == old(value) && editValue == old(editValue) && saved == old(saved)
    {
      isEditing := true;
    }

    /** Typing in the editor. */
    method Change(text: string)
      modifies this
      ensures editValue == text
      ensures value == old(value) && isEditing == old(isEditing) && saved == old(saved)
    {
      editValue := text;
    }

    /** `handleSave`: the trimmed text is reported when it differs from `value`; editing ends
        either way and the editor keeps its text. */
    method Save()
      modifies this
      requires forall i | 0 <= i < |saved| :: Tidy(saved[i])
      ensures forall i | 0 <= i < |saved| :: Tidy(saved[i])
      ensures !isEditing
      ensures Trim(old(editValue)) != old(value) ==> saved == old(saved) + [Trim(old(editValue))]
      ensures Trim(old(editValue)) == old(value) ==> saved == old(saved)
      ensures value == old(value) && editValue == old(editValue)
    {
      TrimSpec(editValue);
      if Trim(editValue) != value {
        saved := saved + [Trim(editValue)];
      }
      isEditing := false;
    }

    /** Leaving the editor saves, as `handleSave` is also the blur handler. */
    method Blur()
      modifies this
      requires forall i | 0 <= i < |saved| :: Tidy(saved[i])
      ensures forall i | 0 <= i < |saved| :: Tidy(saved[i])
      ensures !isEditing
      ensures saved == old(saved) + (if Trim(old(editValue)) != old(value) then [Trim(old(editValue))] else [])
      ensures value == old(value) && editValue == old(editValue)
    {
      Save();
    }

    /** `handleCancel`: the editor goes back to `value` without reporting anything. */
    method Cancel()
      modifies this
      ensures !isEditing && editValue == value
      ensures value == old(value) && saved == old(saved)
    {
      editValue := value;
      isEditing := false;
    }

    /** `handleKeyDown`: Enter saves in a single-line editor, Escape cancels, and every other
        key (Enter in a multi-line editor included) changes nothing. */
    method KeyDown(key: string)
      modifies this
      requires forall i | 0 <= i < |saved| :: Tidy(saved[i])
      ensures forall i | 0 <= i < |saved| :: Tidy(saved[i])
      ensures key == "Enter" && !multiline ==>
        !isEditing && editValue == old(editValue)
        && saved == old(saved) + (if Trim(old(editValue)) != old(value) then [Trim(old(editValue))] else [])
      ensures key == "Escape" ==> !isEditing && editValue == value && saved == old(saved)
      ensures !(key == "Enter" && !multiline) && key != "Escape" ==>
        isEditing == old(isEditing) && editValue == old(editValue) && saved == old(saved)
      ensures value == old(value)
    {
      if key == "Enter" && !multiline {
        Save();
      } else if key == "Escape" {
        Cancel();
      }
    }
  }

  /** Opening, leaving the text alone and saving reports " Acme " as "Acme"; an edit that only
      adds surrounding spaces to "Acme" reports nothing. */
  method SaveWithoutEdits() returns (fromPadded: seq<string>, fromPlain: seq<string>)
    ensures fromPadded == ["Acme"] && fromPlain == []
  {
    assert Trim(" Acme ") == "Acme" by {
      assert " Acme "[1..] == "Acme " && "Acme "[..4] == "Acme";
    }
    assert Trim("  Acme") == "Acme" by {
      assert "  Acme"[1..] == " Acme" && " Acme"[1..] == "Acme";
    }
    var padded := new Editor(" Acme ", false);
    padded.Begin();
    padded.KeyDown("Enter");
    fromPadded := padded.saved;
    var plain := new Editor("Acme", false);
    plain.Begin();
    plain.Change("  Acme");
    plain.KeyDown("Enter");
    fromPlain := plain.saved;
  }
}
