/** The registration form component: its form state and error list, the two
    change handlers and the submit handler. The messaging SDK is reduced to two
    inputs of a submit: whether the user is logged in, and whether the send and
    the window close that follows it complete without an exception. */
module Reception {
  import opened Form
  import opened Validation
  import opened Message

  datatype Option<T> = None | Some(value: T)

  /** The error shown when sending the message fails. */
  const SendFailedMessage: string := "フォームの送信中に問題が発生しました。もう一度試してください。"

  /** A message is sent only when validation passed and the user is logged in. */
  predicate ShouldSend(validation: seq<string>, isLoggedIn: bool)
  {
    |validation| == 0 && isLoggedIn
  }

  /** The error list after a submit: the validation result, with the retry
      message appended when a send was attempted and the send or the window
      close after it failed. */
  function ErrorsAfterSubmit(validation: seq<string>, attempted: bool, sendSucceeded: bool): seq<string>
  {
    if attempted && !sendSucceeded then validation + [SendFailedMessage] else validation
  }

  /** A send is attempted exactly when the user is logged in and the four
      required fields are all filled in. */
  lemma SendDecision(s: FormState, isLoggedIn: bool)
    ensures ShouldSend(ValidationErrors(s), isLoggedIn)
            <==> isLoggedIn && forall f :: IsRequired(f) ==> Get(s, f) != ""
  {
    ValidationPassesIff(s);
  }

  /** The errors shown after a submit: the validation list when nothing was sent
      or the send succeeded; exactly the retry message when the send failed,
      which is the only case in which the retry message is shown. */
  lemma ErrorsShown(s: FormState, isLoggedIn: bool, sendSucceeded: bool)
    ensures var validation := ValidationErrors(s);
            var attempted := ShouldSend(validation, isLoggedIn);
            var shown := ErrorsAfterSubmit(validation, attempted, sendSucceeded);
            (attempted && !sendSucceeded ==> shown == [SendFailedMessage])
            && (!attempted || sendSucceeded ==> shown == validation)
            && (SendFailedMessage in shown <==> attempted && !sendSucceeded)
  {
    var validation := ValidationErrors(s);
    ValidationReportsOnlyEmptyFields(s);
    forall k | 0 <= k < |validation| ensures validation[k] != SendFailedMessage {
      assert ReportsEmptyField(s, validation[k]);
      var f: RequiredField :| Get(s, f) == "" && validation[k] == MissingMessage(f);
      assert SendFailedMessage[0] != validation[k][0];
    }
  }

  class App {
    var formState: FormState
    var errors: seq<string>

    /** A fresh form: all fields empty, no errors. */
    constructor ()
      ensures formState == Initial() && errors == []
    {
      formState := Initial();
      errors := [];
    }

    /** A text input changed: its field takes the new value. */
    method HandleTextInputChange(name: Field, value: string)
      modifies this`formState
      ensures formState == Update(old(formState), name, value)
    {
      formState := Update(formState, name, value);
    }

    /** A select changed: its field takes the new value. */
    method HandleSelectInputChange(name: Field, value: string)
      modifies this`formState
      ensures formState == Update(old(formState), name, value)
    {
      formState := Update(formState, name, value);
    }

    /** A submit, as one sequential step. `sent` is the text passed to the send
        call, if it was made; `closed` tells whether the window was closed, which
        happens after a successful send. `sendAndCloseSucceed` tells whether the
        send and the window close that follows it both complete without an
        exception: a close that fails after the text was sent still takes the
        error path, so `sent` is set, the window stays open and the retry message
        is shown. The form state is not changed, and the errors from before the
        submit are cleared. */
    method HandleSubmit(isLoggedIn: bool, sendAndCloseSucceed: bool) returns (sent: Option<string>, closed: bool)
      modifies this`errors
      ensures sent.Some? <==> ShouldSend(ValidationErrors(formState), isLoggedIn)
      ensures sent.Some? ==> sent.value == OutboundText(formState)
      ensures closed <==> sent.Some? && sendAndCloseSucceed
      ensures errors == ErrorsAfterSubmit(ValidationErrors(formState), sent.Some?, sendAndCloseSucceed)
    {
      errors := [];
      var tempErrors := CollectErrors(formState);
      errors := tempErrors;
      if |tempErrors| == 0 && isLoggedIn {
        var message := Body(formState);
        sent := Some(Header + message);
        if sendAndCloseSucceed {
          closed := true;
        } else {
          closed := false;
          errors := errors + [SendFailedMessage];
        }
      } else {
        sent := None;
        closed := false;
      }
    }
  }
}
