/** The outbound registration message: seven labelled entries (the last three
    empty when their field is), the empty ones dropped, the rest joined by
    newlines under a fixed header line. Also the form's conditional visibility
    of the optional inputs, which the message does not consult. */
module Message {
  import opened Form
  import opened Text

  const Header: string := "初回登録\n"
  /** The header without its line break: the first line of every message. */
  const HeaderLine: string := "初回登録"

  const NameLabel: string := "名前: "
  const FuriganaLabel: string := "ふりがな: "
  const GenderLabel: string := "性別: "
  const AffiliationLabel: string := "所属: "
  const ClubNameLabel: string := "単会名: "
  const SourceLabel: string := "どのように知りましたか: "
  const PhoneNumberLabel: string := "電話番号: "

  /** The four required entries, each a label and the field's value. */
  function RequiredEntries(s: FormState): (r: seq<string>)
    ensures |r| == 4
    ensures forall i :: 0 <= i < |r| ==> r[i] != ""
  {
    [NameLabel + s.name, FuriganaLabel + s.furigana,
     GenderLabel + s.gender, AffiliationLabel + s.affiliation]
  }

  /** `value ? caption + value : ''`: a non-empty value gets its labelled line,
      an empty one gives the empty entry. */
  function OptionalEntry(caption: string, value: string): string
  {
    if value != "" then caption + value else ""
  }

  /** The seven-entry list the message is built from, before filtering. */
  function Entries(s: FormState): seq<string>
  {
    RequiredEntries(s) + [OptionalEntry(ClubNameLabel, s.clubName),
                          OptionalEntry(SourceLabel, s.source),
                          OptionalEntry(PhoneNumberLabel, s.phoneNumber)]
  }

  /** `items.filter(item => item !== '')`. */
  function RemoveEmpty(items: seq<string>): (r: seq<string>)
    ensures |r| <= |items|
    ensures forall x :: x in r <==> x in items && x != ""
  {
    if |items| == 0 then []
    else if items[0] == "" then RemoveEmpty(items[1..])
    else [items[0]] + RemoveEmpty(items[1..])
  }

  /** The entries that make it into the message, in order. */
  function Lines(s: FormState): seq<string>
  {
    RemoveEmpty(Entries(s))
  }

  /** The message body: the kept entries joined with newlines. */
  function Body(s: FormState): string
  {
    Join(Lines(s), '\n')
  }

  /** The text handed to the messaging SDK. */
  function OutboundText(s: FormState): string
  {
    Header + Body(s)
  }

  /** The optional lines the message carries: one per non-empty optional field,
      in the order clubName, source, phoneNumber. */
  function PresentOptionalLines(s: FormState): seq<string>
  {
    (if s.clubName != "" then [ClubNameLabel + s.clubName] else [])
    + (if s.source != "" then [SourceLabel + s.source] else [])
    + (if s.phoneNumber != "" then [PhoneNumberLabel + s.phoneNumber] else [])
  }

  /** How many of the three optional fields are non-empty. */
  function FilledOptionalCount(s: FormState): nat
  {
    (if s.clubName != "" then 1 else 0)
    + (if s.source != "" then 1 else 0)
    + (if s.phoneNumber != "" then 1 else 0)
  }

  lemma {:induction false} RemoveEmptyAppend(a: seq<string>, b: seq<string>)
    ensures RemoveEmpty(a + b) == RemoveEmpty(a) + RemoveEmpty(b)
    decreases |a|
  {
    if |a| > 0 {
      assert (a + b)[1..] == a[1..] + b;
      RemoveEmptyAppend(a[1..], b);
    } else {
      assert a + b == b;
    }
  }

  /** The filter keeps a list with no empty item as it is. */
  lemma {:induction false} RemoveEmptyKeepsNonEmpty(a: seq<string>)
    requires forall i :: 0 <= i < |a| ==> a[i] != ""
    ensures RemoveEmpty(a) == a
    decreases |a|
  {
    if |a| > 0 {
      RemoveEmptyKeepsNonEmpty(a[1..]);
      assert [a[0]] + a[1..] == a;
    }
  }

  /** Line structure of the message: the four required lines first, never
      dropped by the filter, then exactly the optional lines whose field is
      non-empty, in their fixed order. */
  lemma LinesStructure(s: FormState)
    ensures Lines(s) == RequiredEntries(s) + PresentOptionalLines(s)
    ensures Lines(s)[..4] == [NameLabel + s.name, FuriganaLabel + s.furigana,
                              GenderLabel + s.gender, AffiliationLabel + s.affiliation]
    ensures Lines(s)[4..] == PresentOptionalLines(s)
  {
    var opt := [OptionalEntry(ClubNameLabel, s.clubName),
                OptionalEntry(SourceLabel, s.source),
                OptionalEntry(PhoneNumberLabel, s.phoneNumber)];
    assert RemoveEmpty(opt) == PresentOptionalLines(s) by {
      var c, o, p := opt[0], opt[1], opt[2];
      assert opt == [c] + ([o] + [p]);
      RemoveEmptyAppend([c], [o] + [p]);
      RemoveEmptyAppend([o], [p]);
      assert [p][1..] == [] && [o][1..] == [] && [c][1..] == [];
    }
    assert Lines(s) == RequiredEntries(s) + RemoveEmpty(opt) by {
      RemoveEmptyAppend(RequiredEntries(s), opt);
      RemoveEmptyKeepsNonEmpty(RequiredEntries(s));
    }
  }

  /** The message has four lines plus one per non-empty optional field. */
  lemma LinesCount(s: FormState)
    ensures |Lines(s)| == 4 + FilledOptionalCount(s)
  {
    LinesStructure(s);
  }

  /** Whatever breakfastPreference holds, the message is the same: it depends
      only on the other seven fields. */
  lemma OutboundTextIgnoresBreakfast(a: FormState, b: FormState)
    requires forall f :: f != BreakfastPreference ==> Get(a, f) == Get(b, f)
    ensures OutboundText(a) == OutboundText(b)
  {
    assert Get(a, Name) == Get(b, Name) && Get(a, Furigana) == Get(b, Furigana);
    assert Get(a, Gender) == Get(b, Gender) && Get(a, Affiliation) == Get(b, Affiliation);
    assert Get(a, ClubName) == Get(b, ClubName) && Get(a, Source) == Get(b, Source);
    assert Get(a, PhoneNumber) == Get(b, PhoneNumber);
    assert Entries(a) == Entries(b);
  }

  /** Whether the form renders an input for field `f`: the club name only under
      他単会, the referral source and phone number only under ゲスト, the four
      required inputs always, and breakfastPreference never (it has no input). */
  predicate Visible(f: Field, affiliation: string)
  {
    match f
    case ClubName => affiliation == "他単会"
    case Source => affiliation == "ゲスト"
    case PhoneNumber => affiliation == "ゲスト"
    case BreakfastPreference => false
    case _ => true
  }

  /** The shown inputs for a given affiliation: the four required ones always,
      the club name and the guest pair (source, phone number) never together,
      the guest pair always together, and breakfastPreference never; with no
      affiliation chosen only the four required inputs are shown. */
  lemma VisibleInputs(affiliation: string)
    ensures forall f :: f in {Name, Furigana, Gender, Affiliation} ==> Visible(f, affiliation)
    ensures !Visible(BreakfastPreference, affiliation)
    ensures !(Visible(ClubName, affiliation) && Visible(Source, affiliation))
    ensures Visible(Source, affiliation) <==> Visible(PhoneNumber, affiliation)
    ensures affiliation == "" ==> forall f :: Visible(f, affiliation) <==> f in {Name, Furigana, Gender, Affiliation}
  {
  }

  /** Changing the affiliation changes the 所属 line and nothing else: which
      optional lines are sent depends on whether their fields are non-empty,
      never on the current affiliation. */
  lemma OptionalLinesIgnoreAffiliation(s: FormState, a: string)
    ensures |Lines(s)| >= 4
    ensures Lines(Update(s, Affiliation, a)) == Lines(s)[..3] + [AffiliationLabel + a] + Lines(s)[4..]
  {
    LinesStructure(s);
    LinesStructure(Update(s, Affiliation, a));
  }

  /** A club name typed while 他単会 was selected is still sent after switching
      to ゲスト, although its input is then hidden. */
  lemma HiddenClubNameStillSent(s: FormState)
    requires s.affiliation == "他単会" && s.clubName != ""
    ensures Visible(ClubName, s.affiliation)
    ensures !Visible(ClubName, Update(s, Affiliation, "ゲスト").affiliation)
    ensures |Lines(Update(s, Affiliation, "ゲスト"))| > 4
    ensures Lines(Update(s, Affiliation, "ゲスト"))[4] == ClubNameLabel + s.clubName
  {
    LinesStructure(Update(s, Affiliation, "ゲスト"));
  }

  /** No line of the message contains a newline when no field value does. */
  lemma LinesWithoutNewline(s: FormState)
    requires forall f :: '\n' !in Get(s, f)
    ensures forall i :: 0 <= i < |Lines(s)| ==> '\n' !in Lines(s)[i]
  {
    LinesStructure(s);
    assert '\n' !in Get(s, Name) && '\n' !in Get(s, Furigana);
    assert '\n' !in Get(s, Gender) && '\n' !in Get(s, Affiliation);
    assert '\n' !in Get(s, ClubName) && '\n' !in Get(s, Source);
    assert '\n' !in Get(s, PhoneNumber);
  }

  /** The outbound text reads back, line by line, as the fixed header line
      followed by the kept entries, provided no field value has a line break
      (every input is a single-line control). */
  lemma OutboundTextLines(s: FormState)
    requires forall f :: '\n' !in Get(s, f)
    ensures Split(OutboundText(s), '\n') == [HeaderLine] + Lines(s)
  {
    LinesWithoutNewline(s);
    LinesCount(s);
    assert Header == HeaderLine + ['\n'];
    SplitAfterWord(HeaderLine, '\n', Body(s));
    SplitJoin(Lines(s), '\n');
  }
}
