/**
 * The listing form of the admin console: the blank listing, the
 * field-by-field updates made as the admin types (nested agent fields and
 * the comma-separated gallery included), and the numeric conversion made
 * when the form is submitted.
 */
module HouseForm {
  import opened Wrappers
  import opened Text
  import opened Json

  /** The listing being edited, as a JSON object. */
  type FormData = Record

  const DefaultAgentImage: string := "https://i.pravatar.cc/150?u=newagent"

  /** The fields of a blank listing that start as the empty string. */
  const TextFields: set<string> :=
    {"type", "location", "bedrooms", "bathrooms", "surface", "price", "image", "imageLg", "description"}

  /** The fields turned into integers on submit. */
  const NumericFields: set<string> := {"bedrooms", "bathrooms", "price"}

  // ---------------------------------------------------------------------
  // Initial state
  // ---------------------------------------------------------------------

  function BlankListing(): FormData {
    map[
      "type" := Str(""), "location" := Str(""), "bedrooms" := Str(""), "bathrooms" := Str(""),
      "surface" := Str(""), "price" := Str(""), "image" := Str(""), "imageLg" := Str(""),
      "description" := Str(""), "gallery" := Array([]),
      "agent" := Object(map["name" := "", "phone" := "", "image" := DefaultAgentImage])
    ]
  }

  /** `initialData || {...}`: the listing being edited, or a blank one. */
  function InitialFormData(initialData: Option<Record>): FormData {
    if initialData.Some? then initialData.value else BlankListing()
  }

  /**
   * Without a listing to edit, every text field is empty, the gallery is
   * empty, and the agent has no name or phone and the placeholder picture.
   */
  lemma NewListingIsBlank()
    ensures var form := InitialFormData(None);
      && (forall k :: k in form <==> k in TextFields || k == "gallery" || k == "agent")
      && (forall k :: k in TextFields ==> form[k] == Str(""))
      && form["gallery"] == Array([])
      && form["agent"] == Object(map["name" := "", "phone" := "", "image" := DefaultAgentImage])
  {
  }

  // ---------------------------------------------------------------------
  // The gallery text
  // ---------------------------------------------------------------------

  /** `parts.map(url => url.trim())`. */
  function TrimAll(parts: seq<string>): (trimmed: seq<string>)
    ensures |trimmed| == |parts|
    ensures forall k :: 0 <= k < |parts| ==> trimmed[k] == Trim(parts[k])
  {
    if parts == [] then [] else [Trim(parts[0])] + TrimAll(parts[1..])
  }

  /** `value.split(',').map(url => url.trim())`. */
  function ParseGallery(value: string): seq<string> {
    TrimAll(Split(value, ','))
  }

  /**
   * The parsed gallery has one entry more than the text has commas, and no
   * entry holds a comma or outer whitespace.
   */
  lemma ParseGallerySpec(value: string)
    ensures var urls := ParseGallery(value);
      && |urls| == multiset(value)[','] + 1
      && forall k :: 0 <= k < |urls| ==> Trimmed(urls[k]) && ',' !in urls[k]
  {
    var parts := Split(value, ',');
    SplitSpec(value, ',');
    forall k | 0 <= k < |parts|
      ensures ',' !in Trim(parts[k])
    {
    }
  }

  lemma {:induction false} ParsePaddedJoin(pad: string, gallery: seq<string>)
    requires AllSpace(pad) && |gallery| > 0
    requires forall k :: 0 <= k < |gallery| ==> ',' !in gallery[k] && Trimmed(gallery[k])
    ensures TrimAll(Split(pad + Join(gallery, ", "), ',')) == gallery
    decreases |gallery|
  {
    var first := pad + gallery[0];
    TrimPadded(pad, gallery[0]);
    NoCommaInPadded(pad, gallery[0]);
    if |gallery| == 1 {
      assert pad + Join(gallery, ", ") == first;
      SplitWithoutSeparator(first, ',');
      assert TrimAll([first]) == [Trim(first)];
    } else {
      var tail := " " + Join(gallery[1..], ", ");
      SplitJoinedStep(first, pad, gallery);
      assert AllSpace(" ");
      assert forall k :: 0 <= k < |gallery[1..]| ==> gallery[1..][k] == gallery[k + 1];
      ParsePaddedJoin(" ", gallery[1..]);
      TrimAllCons(first, Split(tail, ','));
      assert [gallery[0]] + gallery[1..] == gallery;
    }
  }

  lemma NoCommaInPadded(pad: string, url: string)
    requires AllSpace(pad) && ',' !in url
    ensures ',' !in pad + url
  {
    assert forall i :: 0 <= i < |pad| ==> pad[i] != ',';
  }

  lemma SplitJoinedStep(first: string, pad: string, gallery: seq<string>)
    requires |gallery| > 1 && first == pad + gallery[0] && ',' !in first
    ensures Split(pad + Join(gallery, ", "), ',') == [first] + Split(" " + Join(gallery[1..], ", "), ',')
  {
    var tail := " " + Join(gallery[1..], ", ");
    assert pad + Join(gallery, ", ") == first + [','] + tail;
    SplitAfterPiece(first, ',', tail);
  }

  lemma TrimAllCons(x: string, rest: seq<string>)
    ensures TrimAll([x] + rest) == [Trim(x)] + TrimAll(rest)
  {
    assert ([x] + rest)[1..] == rest;
  }

  /**
   * The gallery box shows `gallery.join(', ')`; parsing that text gives
   * back the gallery, provided it is not empty and its URLs hold no comma
   * and no outer whitespace.
   */
  lemma GalleryRoundTrip(gallery: seq<string>)
    requires |gallery| > 0
    requires forall k :: 0 <= k < |gallery| ==> ',' !in gallery[k] && Trimmed(gallery[k])
    ensures ParseGallery(Join(gallery, ", ")) == gallery
  {
    ParsePaddedJoin("", gallery);
    assert "" + Join(gallery, ", ") == Join(gallery, ", ");
  }

  /** The empty gallery does not come back empty: it is shown as "" and parsed as one empty URL. */
  lemma EmptyGalleryComesBackBlank()
    ensures ParseGallery(Join([], ", ")) == [""]
  {
    assert Split("", ',') == [""];
  }

  /** After one edit the gallery is stable: showing it and parsing it again changes nothing. */
  lemma GalleryReparseStable(value: string)
    ensures ParseGallery(Join(ParseGallery(value), ", ")) == ParseGallery(value)
  {
    ParseGallerySpec(value);
    GalleryRoundTrip(ParseGallery(value));
  }

  // ---------------------------------------------------------------------
  // handleChange
  // ---------------------------------------------------------------------

  /** `{...formData.agent}`: the agent's fields; a missing agent spreads to none. */
  function AgentFields(form: FormData): map<string, string> {
    if "agent" in form && form["agent"].Object? then form["agent"].fields else map[]
  }

  /** `name.split('.')[1]` for a name starting with "agent.". */
  function AgentFieldName(name: string): string
    requires StartsWith(name, "agent.")
  {
    SplitCount(name, '.');
    assert name[5] == '.' && name[5] in multiset(name);
    Split(name, '.')[1]
  }

  /** The new form data after the input called `name` changed to `value`. */
  function ApplyChange(form: FormData, name: string, value: string): FormData {
    if StartsWith(name, "agent.") then
      form["agent" := Object(AgentFields(form)[AgentFieldName(name) := value])]
    else if name == "gallery" then
      form["gallery" := Array(ParseGallery(value))]
    else
      form[name := Str(value)]
  }

  /** "agent.X" changes the agent's field X and nothing else. */
  lemma ChangeAgentField(form: FormData, field: string, value: string)
    requires '.' !in field
    ensures var updated := ApplyChange(form, "agent." + field, value);
      && (forall k :: k in updated <==> k in form || k == "agent")
      && (forall k :: k in form && k != "agent" ==> updated[k] == form[k])
      && updated["agent"].Object?
      && (forall g :: g in updated["agent"].fields <==> g in AgentFields(form) || g == field)
      && updated["agent"].fields[field] == value
      && (forall g :: g in AgentFields(form) && g != field ==> updated["agent"].fields[g] == AgentFields(form)[g])
  {
    var name := "agent." + field;
    assert StartsWith(name, "agent.") by {
      assert name[..6] == "agent.";
    }
    assert name == "agent" + ['.'] + field;
    SplitAfterPiece("agent", '.', field);
    SplitWithoutSeparator(field, '.');
    assert AgentFieldName(name) == field;
  }

  /** "gallery" replaces the gallery by the parsed URL list and changes nothing else. */
  lemma ChangeGallery(form: FormData, value: string)
    ensures var updated := ApplyChange(form, "gallery", value);
      && (forall k :: k in updated <==> k in form || k == "gallery")
      && (forall k :: k in form && k != "gallery" ==> updated[k] == form[k])
      && updated["gallery"] == Array(ParseGallery(value))
  {
    var name := "gallery";
    assert name[..6][0] == 'g';
    assert !StartsWith(name, "agent.");
  }

  /** Any other name sets that one top-level field to the typed text. */
  lemma ChangeOtherField(form: FormData, name: string, value: string)
    requires !StartsWith(name, "agent.") && name != "gallery"
    ensures var updated := ApplyChange(form, name, value);
      && (forall k :: k in updated <==> k in form || k == name)
      && updated[name] == Str(value)
      && (forall k :: k in form && k != name ==> updated[k] == form[k])
  {
  }

  // ---------------------------------------------------------------------
  // handleSubmit
  // ---------------------------------------------------------------------

  /**
   * The data handed to `onSubmit`: bedrooms, bathrooms and price replaced
   * by their `parseInt`, a number or `NaN`; every other field as it was.
   */
  function SubmissionData(form: FormData): FormData {
    var bedrooms := ParseIntOf(Get(form, "bedrooms"));
    var bathrooms := ParseIntOf(Get(form, "bathrooms"));
    var price := ParseIntOf(Get(form, "price"));
    form["bedrooms" := bedrooms]["bathrooms" := bathrooms]["price" := price]
  }

  /**
   * The submitted data has the form's fields plus the three numeric ones;
   * those hold `parseInt` of what the form held, the others are unchanged.
   */
  lemma SubmissionFields(form: FormData)
    ensures var submission := SubmissionData(form);
      && (forall k :: k in submission <==> k in form || k in NumericFields)
      && (forall k :: k in submission ==>
            submission[k] == if k in NumericFields then ParseIntOf(Get(form, k)) else form[k])
  {
  }

  /** Submitting the submitted data again changes nothing: numbers stay numbers. */
  lemma SubmissionIdempotent(form: FormData)
    ensures SubmissionData(SubmissionData(form)) == SubmissionData(form)
  {
    var once := SubmissionData(form);
    var twice := SubmissionData(once);
    SubmissionFields(form);
    SubmissionFields(once);
    forall k | k in twice
      ensures k in once && twice[k] == once[k]
    {
      if k in NumericFields {
        assert Get(once, k) == Some(once[k]);
        ParseIntOfNumeric(once[k]);
      }
    }
    assert forall k :: k in once ==> k in twice;
  }

  /** `SubmissionData` of the blank listing holds `NaN` in each of its numeric fields. */
  lemma BlankFieldsSubmitNaN()
    ensures var submission := SubmissionData(InitialFormData(None));
      forall k :: k in NumericFields ==> k in submission && submission[k] == NaN
  {
    var form := InitialFormData(None);
    SubmissionFields(form);
    NewListingIsBlank();
    ParseIntOfBlank();
    forall k | k in NumericFields
      ensures Get(form, k) == Some(Str(""))
    {
      assert k in TextFields;
    }
  }

  /** A numeral typed into a numeric field is submitted as that number. */
  lemma SubmitsTypedNumber(form: FormData, k: string, n: int, rest: string)
    requires k in NumericFields && k in form && form[k] == Str(ToDecimal(n) + rest)
    requires rest == [] || !IsDigit(rest[0])
    ensures SubmissionData(form)[k] == Number(n)
  {
    ParseIntOfNumeral(n, rest);
  }

  // ---------------------------------------------------------------------
  // The form component's state
  // ---------------------------------------------------------------------

  class Form {
    var formData: FormData

    constructor (initialData: Option<Record>)
      ensures formData == InitialFormData(initialData)
    {
      formData := InitialFormData(initialData);
    }

    /** An input's change event. */
    method HandleChange(name: string, value: string)
      modifies this
      ensures formData == ApplyChange(old(formData), name, value)
    {
      formData := ApplyChange(formData, name, value);
    }

    /** The submit event: the data handed to `onSubmit`. */
    method HandleSubmit() returns (submission: FormData)
      ensures submission == SubmissionData(formData)
    {
      submission := SubmissionData(formData);
    }
  }
}
