/** The registration form's state: an eight-field record of strings, and the
    single-field update that both change handlers of the form perform. */
module Form {

  /** The names of the eight inputs, in the order the record declares them. */
  datatype Field =
    | Name | Furigana | Gender | Affiliation
    | ClubName | Source | PhoneNumber | BreakfastPreference

  datatype FormState = FormState(
    name: string,
    furigana: string,
    gender: string,
    affiliation: string,
    clubName: string,
    source: string,
    phoneNumber: string,
    breakfastPreference: string)

  /** The value of one named field. */
  function Get(s: FormState, f: Field): string
  {
    match f
    case Name => s.name
    case Furigana => s.furigana
    case Gender => s.gender
    case Affiliation => s.affiliation
    case ClubName => s.clubName
    case Source => s.source
    case PhoneNumber => s.phoneNumber
    case BreakfastPreference => s.breakfastPreference
  }

  /** The state the form starts in: every field is the empty string. */
  function Initial(): (s: FormState)
    ensures forall f :: Get(s, f) == ""
  {
    FormState("", "", "", "", "", "", "", "")
  }

  /** `{ ...s, [f]: v }`: field `f` becomes `v`, every other field keeps its value. */
  function Update(s: FormState, f: Field, v: string): (r: FormState)
    ensures Get(r, f) == v
    ensures forall g :: g != f ==> Get(r, g) == Get(s, g)
  {
    match f
    case Name => s.(name := v)
    case Furigana => s.(furigana := v)
    case Gender => s.(gender := v)
    case Affiliation => s.(affiliation := v)
    case ClubName => s.(clubName := v)
    case Source => s.(source := v)
    case PhoneNumber => s.(phoneNumber := v)
    case BreakfastPreference => s.(breakfastPreference := v)
  }

  /** Two states that agree on every field are the same state. */
  lemma FieldsDetermineState(a: FormState, b: FormState)
    requires forall f :: Get(a, f) == Get(b, f)
    ensures a == b
  {
    assert Get(a, Name) == Get(b, Name) && Get(a, Furigana) == Get(b, Furigana);
    assert Get(a, Gender) == Get(b, Gender) && Get(a, Affiliation) == Get(b, Affiliation);
    assert Get(a, ClubName) == Get(b, ClubName) && Get(a, Source) == Get(b, Source);
    assert Get(a, PhoneNumber) == Get(b, PhoneNumber);
    assert Get(a, BreakfastPreference) == Get(b, BreakfastPreference);
  }

  /** An update is determined by what it promises: any state in which `f` is `v`
      and nothing else changed is exactly `Update(s, f, v)`. */
  lemma UpdateIsOnlyChange(s: FormState, f: Field, v: string, r: FormState)
    requires Get(r, f) == v
    requires forall g :: g != f ==> Get(r, g) == Get(s, g)
    ensures r == Update(s, f, v)
  {
    var u := Update(s, f, v);
    forall g ensures Get(r, g) == Get(u, g) {
      if g != f {
        assert Get(u, g) == Get(s, g);
      }
    }
    FieldsDetermineState(r, u);
  }
}
