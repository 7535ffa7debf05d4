/** The processing-errors panel of an entity page. */
module WarningCards {
  import opened Wrappers
  import opened Seqs

  /** One status item; any field may be missing. `errorMessage` is the nested error's message. */
  datatype StatusItem = StatusItem(
    level: Option<string>,
    itemType: Option<string>,
    message: Option<string>,
    errorMessage: Option<string>)

  /** The entity's status: missing, present without items, or with items. */
  datatype Status = NoStatus | NoItems | Items(items: seq<StatusItem>)

  predicate IsError(it: StatusItem) {
    it.level == Some("error") || it.itemType == Some("error")
  }

  /** The error items, in status order; none when status or its items are missing. */
  function Errors(s: Status): (errs: seq<StatusItem>)
    ensures s.Items? ==> forall it :: it in errs <==> it in s.items && IsError(it)
    ensures !s.Items? ==> errs == []
  {
    match s
    case Items(items) => Filter(items, IsError)
    case _ => []
  }

  /** The text for one error: its message, else its nested error's message, else a fixed fallback. */
  function ErrorText(it: StatusItem): (text: string)
    ensures text != ""
    ensures Truthy(it.message) ==> text == it.message.value
    ensures !Truthy(it.message) && Truthy(it.errorMessage) ==> text == it.errorMessage.value
    ensures !Truthy(it.message) && !Truthy(it.errorMessage) ==> text == "Unknown error"
  {
    OrElse(it.message, OrElse(it.errorMessage, "Unknown error"))
  }

  /** The panel: absent when there are no errors, else one line per error in order. */
  function Panel(s: Status): (lines: Option<seq<string>>)
    ensures lines.None? <==> |Errors(s)| == 0
    ensures lines.Some? ==> |lines.value| == |Errors(s)|
    ensures lines.Some? ==> forall i :: 0 <= i < |lines.value| ==> lines.value[i] == ErrorText(Errors(s)[i])
  {
    var errs := Errors(s);
    if |errs| == 0 then None
    else Some(seq(|errs|, i requires 0 <= i < |errs| => ErrorText(errs[i])))
  }

  /** The panel is shown exactly when some status item is an error. */
  lemma PanelShownIff(s: Status)
    ensures Panel(s).Some? <==> s.Items? && exists it :: it in s.items && IsError(it)
  {
    var errs := Errors(s);
    if |errs| > 0 { assert errs[0] in errs; }
    if s.Items? && exists it :: it in s.items && IsError(it) {
      var it :| it in s.items && IsError(it);
      assert it in errs;
    }
  }
}
