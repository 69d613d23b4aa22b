/** Required-field validation run at the start of a submit: one error message
    for each of name, furigana, gender and affiliation that is empty, in that
    order. */
module Validation {
  import opened Form

  const NameMissing: string := "名前を入力してください。"
  const FuriganaMissing: string := "ふりがなを入力してください。"
  const GenderMissing: string := "性別を選択してください。"
  const AffiliationMissing: string := "所属を選択してください。"

  predicate IsRequired(f: Field)
  {
    f.Name? || f.Furigana? || f.Gender? || f.Affiliation?
  }

  type RequiredField = f: Field | IsRequired(f) witness Name

  /** The fields a submit requires, in the order they are checked. */
  const RequiredFields: seq<RequiredField> := [Name, Furigana, Gender, Affiliation]

  /** Position of a field in the record's declaration order. */
  function Rank(f: Field): nat
  {
    match f
    case Name => 0
    case Furigana => 1
    case Gender => 2
    case Affiliation => 3
    case ClubName => 4
    case Source => 5
    case PhoneNumber => 6
    case BreakfastPreference => 7
  }

  /** The message shown when a required field is empty. */
  function MissingMessage(f: RequiredField): string
  {
    match f
    case Name => NameMissing
    case Furigana => FuriganaMissing
    case Gender => GenderMissing
    case Affiliation => AffiliationMissing
  }

  /** Position of a message among the four validation messages (4 for any other string). */
  function MessageRank(e: string): nat
  {
    if e == NameMissing then 0
    else if e == FuriganaMissing then 1
    else if e == GenderMissing then 2
    else if e == AffiliationMissing then 3
    else 4
  }

  lemma MessageRankOfMissing(f: RequiredField)
    ensures MessageRank(MissingMessage(f)) == Rank(f)
  {
  }

  ghost predicate StrictlyRanked(fields: seq<RequiredField>)
  {
    forall i, j :: 0 <= i < j < |fields| ==> Rank(fields[i]) < Rank(fields[j])
  }

  /** The message for field `f` if it is empty, else nothing. */
  function MessageIfEmpty(s: FormState, f: RequiredField): seq<string>
  {
    if Get(s, f) == "" then [MissingMessage(f)] else []
  }

  /** A prefix of a strictly ranked list is strictly ranked. */
  lemma StrictlyRankedPrefix(fields: seq<RequiredField>, n: nat)
    requires StrictlyRanked(fields) && n <= |fields|
    ensures StrictlyRanked(fields[..n])
  {
  }

  /** In a strictly ranked list, the last field ranks above every earlier one,
      so it does not occur earlier. */
  lemma LastRanksHighest(fields: seq<RequiredField>, k: nat)
    requires StrictlyRanked(fields) && k < |fields| - 1
    ensures Rank(fields[..|fields| - 1][k]) < Rank(fields[|fields| - 1])
  {
  }

  /** The messages for the empty fields among `fields`, in the order of
      `fields`: the list built by checking the fields one after another and
      appending a message for each empty one. */
  function MissingErrors(fields: seq<RequiredField>, s: FormState): seq<string>
    decreases |fields|
  {
    if |fields| == 0 then []
    else MissingErrors(fields[..|fields| - 1], s) + MessageIfEmpty(s, fields[|fields| - 1])
  }

  /** The validation result of a submit on state `s`. */
  function ValidationErrors(s: FormState): seq<string>
  {
    MissingErrors(RequiredFields, s)
  }

  /** Checking one more field appends its message, if any. */
  lemma MissingErrorsSnoc(fields: seq<RequiredField>, f: RequiredField, s: FormState)
    ensures MissingErrors(fields + [f], s) == MissingErrors(fields, s) + MessageIfEmpty(s, f)
  {
  }

  /** After checking the first `k` required fields, the list pushed so far. */
  lemma CheckedPrefix(k: nat, s: FormState)
    requires 0 < k <= |RequiredFields|
    ensures MissingErrors(RequiredFields[..k], s)
            == MissingErrors(RequiredFields[..k - 1], s) + MessageIfEmpty(s, RequiredFields[k - 1])
  {
    MissingErrorsSnoc(RequiredFields[..k - 1], RequiredFields[k - 1], s);
    assert RequiredFields[..k] == RequiredFields[..k - 1] + [RequiredFields[k - 1]];
  }

  /** The validation block of a submit: start with an empty list and push one
      message per empty required field, checked in a fixed order. */
  method CollectErrors(s: FormState) returns (tempErrors: seq<string>)
    ensures tempErrors == ValidationErrors(s)
  {
    tempErrors := [];
    if s.name == "" {
      tempErrors := tempErrors + [NameMissing];
    }
    if s.furigana == "" {
      tempErrors := tempErrors + [FuriganaMissing];
    }
    if s.gender == "" {
      tempErrors := tempErrors + [GenderMissing];
    }
    if s.affiliation == "" {
      tempErrors := tempErrors + [AffiliationMissing];
    }
    assert tempErrors == MessageIfEmpty(s, Name) + MessageIfEmpty(s, Furigana)
                         + MessageIfEmpty(s, Gender) + MessageIfEmpty(s, Affiliation);
    ValidationErrorsByField(s);
  }

  /** The validation result, field by field in checking order. */
  lemma ValidationErrorsByField(s: FormState)
    ensures ValidationErrors(s)
            == MessageIfEmpty(s, Name) + MessageIfEmpty(s, Furigana)
               + MessageIfEmpty(s, Gender) + MessageIfEmpty(s, Affiliation)
  {
    CheckedPrefix(4, s);
    CheckedPrefix(3, s);
    CheckedPrefix(2, s);
    CheckedPrefix(1, s);
    assert RequiredFields[..4] == RequiredFields;
  }

  // General facts about MissingErrors, proved by induction on the field list.

  /** `e` is the message of an empty field at some position of `fields`. */
  ghost predicate ReportsListedField(fields: seq<RequiredField>, s: FormState, e: string)
  {
    exists i :: 0 <= i < |fields| && Get(s, fields[i]) == "" && e == MissingMessage(fields[i])
  }

  /** Every message reports an empty field of the list, and there are no more
      messages than fields. */
  lemma {:induction false} MissingErrorsFrom(fields: seq<RequiredField>, s: FormState)
    ensures |MissingErrors(fields, s)| <= |fields|
    ensures forall k :: 0 <= k < |MissingErrors(fields, s)| ==>
              ReportsListedField(fields, s, MissingErrors(fields, s)[k])
    decreases |fields|
  {
    if |fields| > 0 {
      var n := |fields| - 1;
      var init := MissingErrors(fields[..n], s);
      MissingErrorsFrom(fields[..n], s);
      var e := MissingErrors(fields, s);
      forall k | 0 <= k < |e| ensures ReportsListedField(fields, s, e[k]) {
        if k < |init| {
          assert e[k] == init[k];
          assert ReportsListedField(fields[..n], s, init[k]);
          var i :| 0 <= i < n && Get(s, fields[..n][i]) == "" && init[k] == MissingMessage(fields[..n][i]);
          assert fields[..n][i] == fields[i];
        } else {
          assert e[k] == MissingMessage(fields[n]) && Get(s, fields[n]) == "";
        }
      }
    }
  }

  /** No field occurs twice in `fields`. */
  ghost predicate NoRepeats(fields: seq<RequiredField>)
    decreases |fields|
  {
    |fields| == 0
    || (fields[|fields| - 1] !in fields[..|fields| - 1] && NoRepeats(fields[..|fields| - 1]))
  }

  /** How often required field `f`'s message occurs in the messages for `fields`,
      split into the part before the last field and the last field's own part. */
  lemma MissingErrorsCountSnoc(fields: seq<RequiredField>, s: FormState, f: RequiredField)
    requires |fields| > 0
    ensures multiset(MissingErrors(fields, s))[MissingMessage(f)]
            == multiset(MissingErrors(fields[..|fields| - 1], s))[MissingMessage(f)]
               + (if fields[|fields| - 1] == f && Get(s, f) == "" then 1 else 0)
  {
  }

  lemma InSnoc(fields: seq<RequiredField>, f: RequiredField)
    requires |fields| > 0
    ensures f in fields <==> f in fields[..|fields| - 1] || f == fields[|fields| - 1]
  {
  }

  /** A field of a duplicate-free list is reported exactly once when empty and never otherwise. */
  lemma {:induction false} MissingErrorsCount(fields: seq<RequiredField>, s: FormState, f: RequiredField)
    requires NoRepeats(fields)
    ensures multiset(MissingErrors(fields, s))[MissingMessage(f)]
            == if f in fields && Get(s, f) == "" then 1 else 0
    decreases |fields|
  {
    if |fields| > 0 {
      var n := |fields| - 1;
      MissingErrorsCount(fields[..n], s, f);
      MissingErrorsCountSnoc(fields, s, f);
      InSnoc(fields, f);
    }
  }

  /** The messages come out in strictly increasing rank. */
  lemma {:induction false} MissingErrorsOrdered(fields: seq<RequiredField>, s: FormState)
    requires StrictlyRanked(fields)
    ensures forall i, j :: 0 <= i < j < |MissingErrors(fields, s)| ==>
              MessageRank(MissingErrors(fields, s)[i]) < MessageRank(MissingErrors(fields, s)[j])
    decreases |fields|
  {
    if |fields| > 0 {
      var n := |fields| - 1;
      var init := MissingErrors(fields[..n], s);
      StrictlyRankedPrefix(fields, n);
      MissingErrorsOrdered(fields[..n], s);
      if Get(s, fields[n]) == "" {
        var e := MissingErrors(fields, s);
        assert e == init + [MissingMessage(fields[n])];
        MissingErrorsFrom(fields[..n], s);
        MessageRankOfMissing(fields[n]);
        forall i | 0 <= i < |init| ensures MessageRank(e[i]) < MessageRank(e[|init|]) {
          assert e[i] == init[i];
          assert ReportsListedField(fields[..n], s, init[i]);
          var m :| 0 <= m < n && Get(s, fields[..n][m]) == "" && init[i] == MissingMessage(fields[..n][m]);
          MessageRankOfMissing(fields[..n][m]);
          LastRanksHighest(fields, m);
        }
      } else {
        assert MissingErrors(fields, s) == init;
      }
    }
  }

  /** Only the values of the listed fields matter. */
  lemma {:induction false} MissingErrorsDependOnFields(fields: seq<RequiredField>, s: FormState, t: FormState)
    requires forall i :: 0 <= i < |fields| ==> Get(s, fields[i]) == Get(t, fields[i])
    ensures MissingErrors(fields, s) == MissingErrors(fields, t)
    decreases |fields|
  {
    if |fields| > 0 {
      MissingErrorsDependOnFields(fields[..|fields| - 1], s, t);
    }
  }

  // The properties of the validation result itself.

  /** Exactly one message for each empty required field, none for a filled one. */
  lemma ValidationReportsEachEmptyFieldOnce(s: FormState, f: RequiredField)
    ensures multiset(ValidationErrors(s))[MissingMessage(f)] == if Get(s, f) == "" then 1 else 0
  {
    assert NoRepeats(RequiredFields) by {
      assert NoRepeats([Name]) by { assert [Name][..0] == []; }
      assert NoRepeats([Name, Furigana]) by { assert [Name, Furigana][..1] == [Name]; }
      assert NoRepeats([Name, Furigana, Gender]) by {
        assert [Name, Furigana, Gender][..2] == [Name, Furigana];
      }
      assert RequiredFields[..3] == [Name, Furigana, Gender];
    }
    MissingErrorsCount(RequiredFields, s, f);
  }

  /** `e` is the message of some required field that is empty in `s`. */
  ghost predicate ReportsEmptyField(s: FormState, e: string)
  {
    exists f: RequiredField :: Get(s, f) == "" && e == MissingMessage(f)
  }

  /** Every message reports an empty required field, and there are at most four. */
  lemma ValidationReportsOnlyEmptyFields(s: FormState)
    ensures |ValidationErrors(s)| <= 4
    ensures forall k :: 0 <= k < |ValidationErrors(s)| ==> ReportsEmptyField(s, ValidationErrors(s)[k])
  {
    MissingErrorsFrom(RequiredFields, s);
    forall k | 0 <= k < |ValidationErrors(s)|
      ensures ReportsEmptyField(s, ValidationErrors(s)[k])
    {
      assert ReportsListedField(RequiredFields, s, ValidationErrors(s)[k]);
      var i :| 0 <= i < |RequiredFields| && Get(s, RequiredFields[i]) == ""
               && ValidationErrors(s)[k] == MissingMessage(RequiredFields[i]);
      var f := RequiredFields[i];
      assert Get(s, f) == "" && ValidationErrors(s)[k] == MissingMessage(f);
    }
  }

  /** The messages appear in the order name, furigana, gender, affiliation. */
  lemma ValidationOrdered(s: FormState)
    ensures forall i, j :: 0 <= i < j < |ValidationErrors(s)| ==>
              MessageRank(ValidationErrors(s)[i]) < MessageRank(ValidationErrors(s)[j])
  {
    MissingErrorsOrdered(RequiredFields, s);
  }

  /** Validation passes exactly when the four required fields are all non-empty. */
  lemma ValidationPassesIff(s: FormState)
    ensures ValidationErrors(s) == [] <==> forall f :: IsRequired(f) ==> Get(s, f) != ""
  {
    if ValidationErrors(s) == [] {
      forall f | IsRequired(f) ensures Get(s, f) != "" {
        ValidationReportsEachEmptyFieldOnce(s, f);
      }
    } else {
      ValidationReportsOnlyEmptyFields(s);
      assert ReportsEmptyField(s, ValidationErrors(s)[0]);
    }
  }

  /** Changing clubName, source, phoneNumber or breakfastPreference never changes the result. */
  lemma ValidationIgnoresOptionalFields(s: FormState, f: Field, v: string)
    requires !IsRequired(f)
    ensures ValidationErrors(Update(s, f, v)) == ValidationErrors(s)
  {
    MissingErrorsDependOnFields(RequiredFields, Update(s, f, v), s);
  }
}
