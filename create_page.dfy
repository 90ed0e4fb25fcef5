/**
 * The "create project" form: its three validation rules, the features it
 * keeps, the tech stack it infers from the description, the project data
 * it prepares and logs, and the edit of one feature slot.
 */
module CreatePage {
  import opened Text

  // ---------------------------------------------------------------------
  // Validation
  // ---------------------------------------------------------------------

  const NameKey: string := "name"
  const DescriptionKey: string := "description"
  const FeaturesKey: string := "features"

  const NameRequired: string := "Project name is required"
  const DescriptionTooShort: string := "Description must be at least 10 characters"
  const FeatureRequired: string := "At least one feature is required"

  /** `features.filter(f => f.trim())`: the entries that are not blank, in
      their original order. */
  function FilledFeatures(features: seq<string>): (r: seq<string>)
    ensures |r| <= |features|
    ensures forall x :: x in r <==> x in features && !IsBlank(x)
  {
    if features == [] then []
    else
      var rest := FilledFeatures(features[1..]);
      assert features == [features[0]] + features[1..];
      if IsBlank(features[0]) then rest else [features[0]] + rest
  }

  /** The filter keeps the slots in order and with their repetitions: it
      works slot by slot, keeping a slot exactly when it is not blank, and
      the result for a list is the result for its first part followed by
      the result for the rest. */
  lemma {:induction false} FilledFeaturesInOrder(a: seq<string>, b: seq<string>)
    ensures FilledFeatures(a + b) == FilledFeatures(a) + FilledFeatures(b)
    ensures |a| == 1 ==> FilledFeatures(a) == if IsBlank(a[0]) then [] else a
  {
    if a == [] {
      assert a + b == b;
    } else {
      assert (a + b)[1..] == a[1..] + b;
      FilledFeaturesInOrder(a[1..], b);
      if |a| == 1 {
        assert a[1..] == [];
      }
    }
  }

  /** The form is valid: a name that is not blank, a description of at
      least ten characters (blanks count), and a feature that is not
      blank. */
  predicate FormValid(name: string, description: string, features: seq<string>) {
    && !IsBlank(name)
    && |description| >= 10
    && exists i :: 0 <= i < |features| && !IsBlank(features[i])
  }

  /** The `errors` record `validateForm` builds, rule by rule. */
  function ValidationErrors(name: string, description: string, features: seq<string>): (r: map<string, string>)
    ensures NameKey in r <==> IsBlank(name)
    ensures DescriptionKey in r <==> |description| < 10
    ensures FeaturesKey in r <==> forall i :: 0 <= i < |features| ==> IsBlank(features[i])
    ensures NameKey in r ==> r[NameKey] == NameRequired
    ensures DescriptionKey in r ==> r[DescriptionKey] == DescriptionTooShort
    ensures FeaturesKey in r ==> r[FeaturesKey] == FeatureRequired
    ensures r.Keys <= {NameKey, DescriptionKey, FeaturesKey}
  {
    var e := map[];
    var e := if IsBlank(name) then e[NameKey := NameRequired] else e;
    var e := if |description| < 10 then e[DescriptionKey := DescriptionTooShort] else e;
    FilledFeaturesEmptyIffBlank(features);
    if FilledFeatures(features) == [] then e[FeaturesKey := FeatureRequired] else e
  }

  /** No feature survives the filter exactly when every slot is blank. */
  lemma FilledFeaturesEmptyIffBlank(features: seq<string>)
    ensures FilledFeatures(features) == [] <==> forall i :: 0 <= i < |features| ==> IsBlank(features[i])
  {
    var r := FilledFeatures(features);
    if r != [] {
      assert r[0] in features;
    }
    if exists i :: 0 <= i < |features| && !IsBlank(features[i]) {
      var i :| 0 <= i < |features| && !IsBlank(features[i]);
      assert features[i] in r;
    }
  }

  /** `validateForm` answers true exactly when no rule failed, that is,
      when the form is valid. */
  lemma ValidIffNoErrors(name: string, description: string, features: seq<string>)
    ensures ValidationErrors(name, description, features) == map[] <==> FormValid(name, description, features)
  {
    var e := ValidationErrors(name, description, features);
    if e != map[] {
      var k :| k in e;
    }
  }

  /** The rules are independent: the error under each key depends on its
      own field only. */
  lemma RulesIndependent(name: string, description: string, features: seq<string>,
                         name': string, description': string, features': seq<string>)
    ensures name == name' ==>
      (NameKey in ValidationErrors(name, description, features) <==> NameKey in ValidationErrors(name', description', features'))
    ensures description == description' ==>
      (DescriptionKey in ValidationErrors(name, description, features)
       <==> DescriptionKey in ValidationErrors(name', description', features'))
    ensures features == features' ==>
      (FeaturesKey in ValidationErrors(name, description, features)
       <==> FeaturesKey in ValidationErrors(name', description', features'))
  {
  }

  // ---------------------------------------------------------------------
  // Tech stack
  // ---------------------------------------------------------------------

  const DefaultStack: seq<string> := ["React", "Node.js", "MongoDB"]
  const NextStack: seq<string> := ["Next.js", "React", "Node.js"]
  const VueStack: seq<string> := ["Vue.js", "Node.js", "MongoDB"]
  const PythonStack: seq<string> := ["Python", "Django", "PostgreSQL"]

  /** A keyword and the stack it selects. */
  datatype StackRule = StackRule(keyword: string, stack: seq<string>)

  /** The rules in the order they are tried. */
  const StackRules: seq<StackRule> :=
    [StackRule("next", NextStack), StackRule("vue", VueStack), StackRule("python", PythonStack)]

  /** The stack of the last rule whose keyword occurs in `text`, or
      `fallback` when none does. */
  function LastMatch(rules: seq<StackRule>, text: string, fallback: seq<string>): (r: seq<string>)
    ensures r == fallback || exists i :: 0 <= i < |rules| && Contains(text, rules[i].keyword) && r == rules[i].stack
  {
    if rules == [] then fallback
    else
      var last := rules[|rules| - 1];
      if Contains(text, last.keyword) then last.stack else LastMatch(rules[..|rules| - 1], text, fallback)
  }

  /** The stack inferred from a description: the last matching rule wins,
      over the lower-cased description.  Lower-casing is taken on ASCII
      letters only; of the other characters only U+0130 and U+212A lower
      to ASCII letters (i and k), and neither letter occurs in "next",
      "vue" or "python", so no match can differ. */
  function TechStackFor(description: string): seq<string> {
    LastMatch(StackRules, ToLower(description), DefaultStack)
  }

  /** The `techStack` variable of `handleSubmit`: the default, reassigned
      by each rule whose keyword occurs, in turn. */
  method InferTechStack(description: string) returns (techStack: seq<string>)
    ensures techStack == TechStackFor(description)
  {
    var text := ToLower(description);
    techStack := DefaultStack;
    if Contains(text, "next") {
      techStack := NextStack;
    }
    if Contains(text, "vue") {
      techStack := VueStack;
    }
    if Contains(text, "python") {
      techStack := PythonStack;
    }
    TechStackPrecedence(description);
  }

  /** The precedence the sequence of `if`s gives: "python" beats "vue",
      which beats "next", and without any of them the default stays. */
  lemma TechStackPrecedence(description: string)
    ensures var d := ToLower(description);
      && (Contains(d, "python") ==> TechStackFor(description) == PythonStack)
      && (!Contains(d, "python") && Contains(d, "vue") ==> TechStackFor(description) == VueStack)
      && (!Contains(d, "python") && !Contains(d, "vue") && Contains(d, "next") ==> TechStackFor(description) == NextStack)
      && (!Contains(d, "python") && !Contains(d, "vue") && !Contains(d, "next") ==> TechStackFor(description) == DefaultStack)
  {
    var d := ToLower(description);
    assert StackRules[..2] == [StackRule("next", NextStack), StackRule("vue", VueStack)];
    assert StackRules[..2][..1] == [StackRule("next", NextStack)];
    assert StackRules[..2][..1][..0] == [];
    assert TechStackFor(description)
        == if Contains(d, "python") then PythonStack else LastMatch(StackRules[..2], d, DefaultStack);
    assert LastMatch(StackRules[..2], d, DefaultStack)
        == if Contains(d, "vue") then VueStack else LastMatch(StackRules[..2][..1], d, DefaultStack);
    assert LastMatch(StackRules[..2][..1], d, DefaultStack)
        == if Contains(d, "next") then NextStack else LastMatch(StackRules[..2][..1][..0], d, DefaultStack);
  }

  // ---------------------------------------------------------------------
  // Submission
  // ---------------------------------------------------------------------

  /** The project record `handleSubmit` prepares; `features` maps the one
      key "Core Features" to the filled features, and `tags` is empty. */
  datatype ProjectData = ProjectData(
    name: string,
    product: string,
    description: string,
    features: map<string, seq<string>>,
    techStack: seq<string>,
    tags: seq<string>)

  const CoreFeatures: string := "Core Features"

  /** What a submission leads to: the validation errors, the error the
      handler reports, or the project data it prepares and logs before it
      navigates to a fresh mock project. */
  datatype SubmitOutcome =
    | Invalid(errors: map<string, string>)
    | Failed(message: string)
    | Prepared(data: ProjectData)

  /** `handleSubmit` up to the point where it logs the prepared project
      data. */
  function Submit(name: string, description: string, features: seq<string>): (r: SubmitOutcome)
    ensures r.Invalid? <==> !FormValid(name, description, features)
    ensures r.Invalid? ==> r.errors == ValidationErrors(name, description, features)
  {
    ValidIffNoErrors(name, description, features);
    var errors := ValidationErrors(name, description, features);
    if errors != map[] then Invalid(errors)
    else
      var featuresArray := FilledFeatures(features);
      if featuresArray == [] then Failed("Please provide at least one feature")
      else
        Prepared(ProjectData(
          Trim(name), Trim(name), Trim(description),
          map[CoreFeatures := featuresArray], TechStackFor(description), []))
  }

  /** A valid form always yields prepared project data (the second feature
      check cannot fail after validation), with the trimmed name as name and product,
      the trimmed description, the filled features under "Core Features",
      and the inferred stack. */
  lemma SubmitValid(name: string, description: string, features: seq<string>)
    requires FormValid(name, description, features)
    ensures Submit(name, description, features).Prepared?
    ensures var p := Submit(name, description, features).data;
      && p.name == Trim(name) && p.product == p.name && p.name != []
      && p.description == Trim(description)
      && p.features.Keys == {CoreFeatures}
      && p.features[CoreFeatures] == FilledFeatures(features) != []
      && p.techStack == TechStackFor(description)
      && p.tags == []
  {
    ValidIffNoErrors(name, description, features);
    FilledFeaturesEmptyIffBlank(features);
  }

  /** A blank description of ten or more characters (ten spaces, say)
      passes the length rule, which counts the untrimmed text, and is then
      prepared as the empty string. */
  lemma BlankDescriptionPasses(name: string, description: string, features: seq<string>)
    requires !IsBlank(name) && exists i :: 0 <= i < |features| && !IsBlank(features[i])
    requires IsBlank(description) && |description| >= 10
    ensures Submit(name, description, features).Prepared?
    ensures Submit(name, description, features).data.description == ""
  {
    SubmitValid(name, description, features);
  }

  // ---------------------------------------------------------------------
  // The form state
  // ---------------------------------------------------------------------

  /** The `formData` and `validationErrors` state of the form component. */
  class CreateProjectForm {
    var name: string
    var description: string
    var features: seq<string>
    var validationErrors: map<string, string>

    /** Five feature slots, always. */
    ghost predicate Valid()
      reads this
    {
      |features| == 5
    }

    constructor()
      ensures Valid()
      ensures name == "" && description == "" && features == ["", "", "", "", ""]
      ensures validationErrors == map[]
    {
      name := "";
      description := "";
      features := ["", "", "", "", ""];
      validationErrors := map[];
    }

    /** `handleFeatureChange`: slot `index` takes `value`; the other slots,
        the name and the description are kept. */
    method FeatureChange(index: nat, value: string)
      requires Valid() && index < 5
      modifies this
      ensures Valid()
      ensures features[index] == value
      ensures forall j :: 0 <= j < 5 && j != index ==> features[j] == old(features[j])
      ensures name == old(name) && description == old(description)
      ensures validationErrors == old(validationErrors)
    {
      var newFeatures := features;
      newFeatures := newFeatures[index := value];
      features := newFeatures;
    }

    /** `validateForm`: records the errors of the rules that fail and
        answers whether there is none. */
    method ValidateForm() returns (ok: bool)
      modifies this
      ensures validationErrors == ValidationErrors(name, description, features)
      ensures ok <==> FormValid(name, description, features)
      ensures name == old(name) && description == old(description) && features == old(features)
    {
      var errors: map<string, string> := map[];
      if IsBlank(name) {
        errors := errors[NameKey := NameRequired];
      }
      if |description| < 10 {
        errors := errors[DescriptionKey := DescriptionTooShort];
      }
      var filledFeatures := FilledFeatures(features);
      if |filledFeatures| == 0 {
        errors := errors[FeaturesKey := FeatureRequired];
      }
      validationErrors := errors;
      ok := |errors.Keys| == 0;
      ValidIffNoErrors(name, description, features);
    }
  }
}
