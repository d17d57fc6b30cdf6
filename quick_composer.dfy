/**
  The quick activity composer (components/features/activity/QuickActivityComposer.tsx): the
  text being written, the selected activity type, the in-flight flag, and the draft kept in
  the browser's local storage under one key.
*/
module QuickComposer {
  import opened Wrappers
  import opened Strings
  import opened Auth

  /** The type selected initially and after each successful post. */
  const DefaultType := "GENERAL"

  /** The JSON body sent to the activity route. */
  datatype Request = Request(content: string, activityType: string)

  /** The composer's state and the stored draft. */
  class Composer {
    var content: string
    var isPosting: bool
    var selectedType: string
    /** The value stored under the draft key, if any. */
    var draft: Option<string>
    /** Requests sent so far, oldest first. */
    var sent: seq<Request>
    /** How many created activities were handed to `onActivityCreated`. */
    var created: nat

    /** The state before the mount effects run, with `stored` as the stored draft. */
    constructor(stored: Option<string>)
      ensures content == "" && !isPosting && selectedType == DefaultType
      ensures draft == stored && sent == [] && created == 0
    {
      content := "";
      isPosting := false;
      selectedType := DefaultType;
      draft := stored;
      sent := [];
      created := 0;
    }

    /** The auto-save effect, run after every change of `content`: the draft holds the content
        when it is non-empty and is removed otherwise. */
    method SaveDraft()
      modifies this
      ensures draft == (if content != "" then Some(content) else None)
      ensures content == old(content) && isPosting == old(isPosting)
      ensures selectedType == old(selectedType) && sent == old(sent) && created == old(created)
    {
      if content != "" {
        draft := Some(content);
      } else {
        draft := None;
      }
    }

    /** A change of the text, followed by the auto-save effect. */
    method SetContent(c: string)
      modifies this
      ensures content == c
      ensures (draft.Some? <==> c != "") && (draft.Some? ==> draft.value == c)
      ensures isPosting == old(isPosting) && selectedType == old(selectedType)
      ensures sent == old(sent) && created == old(created)
    {
      content := c;
      SaveDraft();
    }

    /** The load-draft effect: a non-empty stored draft becomes the content (and is saved
        again by the auto-save effect). */
    method LoadDraft()
      modifies this
      ensures Truthy(old(draft)) ==> content == old(draft).value && draft == old(draft)
      ensures !Truthy(old(draft)) ==> content == old(content) && draft == old(draft)
      ensures isPosting == old(isPosting) && selectedType == old(selectedType)
      ensures sent == old(sent) && created == old(created)
    {
      if Truthy(draft) {
        SetContent(draft.value);
      }
    }

    /** The mount as written: the auto-save effect is declared, and so runs, before the
        load-draft effect; with the content still empty it removes the stored draft, which
        the load effect then no longer finds. */
    method MountAsWritten()
      modifies this
      requires content == ""
      ensures content == "" && draft == None
      ensures isPosting == old(isPosting) && selectedType == old(selectedType)
      ensures sent == old(sent) && created == old(created)
    {
      SaveDraft();
      LoadDraft();
    }

    /** The mount with the draft loaded first: a stored draft is restored as the content and
        stays stored. */
    method Mount()
      modifies this
      requires content == ""
      ensures Truthy(old(draft)) ==> content == old(draft).value && draft == old(draft)
      ensures !Truthy(old(draft)) ==> content == "" && draft == None
      ensures isPosting == old(isPosting) && selectedType == old(selectedType)
      ensures sent == old(sent) && created == old(created)
    {
      LoadDraft();
      SaveDraft();
    }

    /** A click on a type pill. */
    method SelectType(t: string)
      modifies this
      ensures selectedType == t
      ensures content == old(content) && isPosting == old(isPosting) && draft == old(draft)
      ensures sent == old(sent) && created == old(created)
    {
      selectedType := t;
    }

    /** The start of `handleSubmit`: nothing happens when the text is blank or a post is in
        flight; otherwise the trimmed text is sent with the selected type. */
    method BeginSubmit() returns (request: Option<Request>)
      modifies this
      ensures Trim(old(content)) == [] || old(isPosting) ==>
        request.None? && isPosting == old(isPosting) && sent == old(sent)
      ensures !(Trim(old(content)) == [] || old(isPosting)) ==>
        && request == Some(Request(Trim(old(content)), old(selectedType)))
        && isPosting && sent == old(sent) + [request.value]
      ensures content == old(content) && selectedType == old(selectedType)
      ensures draft == old(draft) && created == old(created)
    {
      if Trim(content) == [] || isPosting {
        return None;
      }
      isPosting := true;
      request := Some(Request(Trim(content), selectedType));
      sent := sent + [request.value];
    }

    /** The end of `handleSubmit`, `ok` telling whether the route answered with success. On
        success the text is emptied (removing the draft) and the type resets to GENERAL; on
        failure both are kept. Either way the in-flight flag drops. */
    method FinishSubmit(ok: bool)
      modifies this
      ensures !isPosting && sent == old(sent)
      ensures ok ==> content == "" && draft == None && selectedType == DefaultType
      ensures ok ==> created == old(created) + 1
      ensures !ok ==> content == old(content) && selectedType == old(selectedType)
      ensures !ok ==> draft == old(draft) && created == old(created)
    {
      if ok {
        created := created + 1;
        SetContent("");
        draft := None;
        selectedType := DefaultType;
      }
      isPosting := false;
    }

    /** `handleKeyDown`: Enter together with Meta or Ctrl submits as `BeginSubmit` does; any
        other key does nothing. */
    method KeyDown(key: string, meta: bool, ctrl: bool) returns (request: Option<Request>)
      modifies this
      ensures !(key == "Enter" && (meta || ctrl)) ==>
        && request.None? && content == old(content) && isPosting == old(isPosting)
        && selectedType == old(selectedType) && draft == old(draft)
        && sent == old(sent) && created == old(created)
      ensures key == "Enter" && (meta || ctrl) && (Trim(old(content)) == [] || old(isPosting)) ==>
        request.None? && isPosting == old(isPosting) && sent == old(sent)
      ensures key == "Enter" && (meta || ctrl) && !(Trim(old(content)) == [] || old(isPosting)) ==>
        && request == Some(Request(Trim(old(content)), old(selectedType)))
        && isPosting && sent == old(sent) + [request.value]
      ensures content == old(content) && selectedType == old(selectedType)
      ensures draft == old(draft) && created == old(created)
    {
      if key == "Enter" && (meta || ctrl) {
        request := BeginSubmit();
      } else {
        request := None;
      }
    }
  }

  /** A stored draft is lost when the composer mounts, and restored once the load effect runs
      first. */
  method DraftOnMount() returns (lost: string, restored: string)
    ensures lost == "" && restored == "call back Tuesday"
  {
    var asWritten := new Composer(Some("call back Tuesday"));
    asWritten.MountAsWritten();
    lost := asWritten.content;
    var fixed := new Composer(Some("call back Tuesday"));
    fixed.Mount();
    restored := fixed.content;
  }

  /** While a post is in flight a second submit sends nothing; once it finishes, a failed post
      can be retried with the same text and type. */
  method RetryAfterFailure() returns (first: Option<Request>, second: Option<Request>, retry: Option<Request>)
    ensures first == Some(Request("Demo went well", "CALL"))
    ensures second == None && retry == first
  {
    var c := new Composer(None);
    c.SetContent("Demo went well");
    c.SelectType("CALL");
    assert Trim("Demo went well") == "Demo went well";
    first := c.BeginSubmit();
    second := c.BeginSubmit();
    c.FinishSubmit(false);
    retry := c.BeginSubmit();
  }
}
