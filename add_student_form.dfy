/** The two-step "Add New Student" wizard: step 1 collects name, e-mail and
    card UID and only advances when they validate; step 2 collects the optional
    photo, category, class level and (for TSS) program; submitting builds the
    payload from the form data and the selections and resets everything.
    File previews, the cancel callback and rendering are not modelled. */
module AddStudentForm {
  import opened Js

  /** A chosen file; only its identity matters here. */
  datatype File = File(name: string, size: nat)

  /** The form data handed to `onSubmit`. */
  datatype FormData = FormData(
    name: string,
    email: string,
    cardUID: string,
    image: Option<File>,
    category: string,
    classLevel: string,
    program: Option<string>)

  // ---------------------------------------------------------------------------
  // Step-1 validation
  // ---------------------------------------------------------------------------

  predicate IsAsciiLetter(c: char)
  {
    ('a' <= c <= 'z') || ('A' <= c <= 'Z')
  }

  predicate IsAsciiDigit(c: char)
  {
    '0' <= c <= '9'
  }

  /** `[A-Z0-9._%+-]` under the `i` flag. */
  predicate IsLocalChar(c: char)
  {
    IsAsciiLetter(c) || IsAsciiDigit(c) || c == '.' || c == '_' || c == '%' || c == '+' || c == '-'
  }

  /** `[A-Z0-9.-]` under the `i` flag. */
  predicate IsDomainChar(c: char)
  {
    IsAsciiLetter(c) || IsAsciiDigit(c) || c == '.' || c == '-'
  }

  /** `[A-Z0-9.-]+\.[A-Z]{2,}$` with its `.` at `dot`: at least one domain
      character before the dot and at least two letters, and nothing else,
      after it. */
  predicate DomainAt(d: string, dot: int)
  {
    1 <= dot && dot + 3 <= |d| && d[dot] == '.'
    && (forall j :: 0 <= j < dot ==> IsDomainChar(d[j]))
    && (forall j :: dot < j < |d| ==> IsAsciiLetter(d[j]))
  }

  predicate DomainMatches(d: string)
  {
    exists dot :: 0 <= dot < |d| && DomainAt(d, dot)
  }

  /** The e-mail pattern with its `@` at `at`. */
  predicate EmailAt(s: string, at: int)
  {
    0 < at < |s| && s[at] == '@'
    && (forall j :: 0 <= j < at ==> IsLocalChar(s[j]))
    && DomainMatches(s[at + 1..])
  }

  /** The e-mail pattern `/^[A-Z0-9._%+-]+@[A-Z0-9.-]+\.[A-Z]{2,}$/i`. */
  predicate EmailMatches(s: string)
  {
    exists at :: 0 <= at < |s| && EmailAt(s, at)
  }

  /** What `trigger(['name', 'email', 'cardUID'])` reports: the three are
      required (non-empty) and the e-mail matches the pattern. */
  predicate StepOneValid(name: string, email: string, cardUID: string)
  {
    name != "" && email != "" && EmailMatches(email) && cardUID != ""
  }

  /** A matching e-mail has exactly one `@`, which neither starts nor ends it. */
  lemma EmailShape(s: string)
    requires EmailMatches(s)
    ensures exists at :: 0 < at < |s| - 1 && s[at] == '@'
    ensures forall i, j :: 0 <= i < j < |s| && s[i] == '@' ==> s[j] != '@'
  {
    var at :| 0 <= at < |s| && EmailAt(s, at);
    var dot :| 0 <= dot < |s[at + 1..]| && DomainAt(s[at + 1..], dot);
    OnlyOneAt(s, at, dot);
  }

  /** Around the `@`, every character is a local, domain or letter character,
      or the dot, so none is another `@`. */
  lemma OnlyOneAt(s: string, at: nat, dot: nat)
    requires EmailAt(s, at) && DomainAt(s[at + 1..], dot)
    ensures at < |s| - 1
    ensures forall k :: 0 <= k < |s| && k != at ==> s[k] != '@'
  {
    var d := s[at + 1..];
    forall k | 0 <= k < |s| && k != at
      ensures s[k] != '@'
    {
      if k < at {
        assert IsLocalChar(s[k]);
      } else if k < at + 1 + dot {
        assert IsDomainChar(d[k - at - 1]);
      } else if k > at + 1 + dot {
        assert IsAsciiLetter(d[k - at - 1]);
      } else {
        assert s[k] == d[dot];
      }
    }
  }

  lemma EmailAccepted()
    ensures EmailMatches("john@university.edu")
  {
    var s := "john@university.edu";
    var d := s[5..];
    assert d == "university.edu";
    assert DomainAt(d, 10);
    assert EmailAt(s, 4);
  }

  /** A domain needs a dot with text on both sides, so a bare `edu` fails. */
  lemma EmailWithoutDotRejected()
    ensures !EmailMatches("john@edu")
  {
    var t := "john@edu";
    forall at
      ensures !EmailAt(t, at)
    {
      if 0 < at < |t| && t[at] == '@' {
        assert at == 4;
        assert |t[at + 1..]| == 3;
      }
    }
  }

  /** The part before the `@` must not be empty. */
  lemma EmailWithoutLocalPartRejected()
    ensures !EmailMatches("@university.edu")
  {
    var t := "@university.edu";
    forall at
      ensures !EmailAt(t, at)
    {
      if 0 < at < |t| {
        assert t[at] != '@';
      }
    }
  }

  // ---------------------------------------------------------------------------
  // Class levels and the submit payload
  // ---------------------------------------------------------------------------

  /** `classLevels[selectedCategory]`, with no options for an unknown key. */
  function ClassLevels(category: string): (levels: seq<string>)
    ensures category == "Primary" ==> levels == ["P1", "P2", "P3", "P4", "P5", "P6"]
    ensures category == "Secondary" ==> levels == ["S1", "S2", "S3", "S4", "S5", "S6"]
    ensures category == "TSS" ==> levels == ["Level 3", "Level 4", "Level 5"]
    ensures category !in {"Primary", "Secondary", "TSS"} ==> levels == []
  {
    if category == "Primary" then ["P1", "P2", "P3", "P4", "P5", "P6"]
    else if category == "Secondary" then ["S1", "S2", "S3", "S4", "S5", "S6"]
    else if category == "TSS" then ["Level 3", "Level 4", "Level 5"]
    else []
  }

  /** The three lists share no level, so a level offered names its category. */
  lemma ClassLevelDeterminesCategory(c1: string, c2: string, level: string)
    requires level in ClassLevels(c1) && level in ClassLevels(c2)
    ensures c1 == c2
  {
  }

  /** The object `handleFormSubmit` passes on: the form data with category and
      class level taken from the selections, the program only for TSS, and the
      selected file or nothing. */
  function BuildPayload(data: FormData, selectedImage: Option<File>, selectedCategory: string,
                        selectedClass: string, selectedProgram: string): (p: FormData)
    ensures p.name == data.name && p.email == data.email && p.cardUID == data.cardUID
    ensures p.category == selectedCategory && p.classLevel == selectedClass
    ensures p.program.Some? <==> selectedCategory == "TSS"
    ensures p.program.Some? ==> p.program.value == selectedProgram
    ensures p.image == selectedImage
  {
    data.(
      category := selectedCategory,
      classLevel := selectedClass,
      program := if selectedCategory == "TSS" then Some(selectedProgram) else None,
      image := selectedImage)
  }

  /** Whatever category, class level or program the form data carries, the
      payload is the same: the selections win. */
  lemma PayloadIgnoresFormSelections(data: FormData, other: FormData, img: Option<File>,
                                     cat: string, cls: string, prog: string)
    requires data.name == other.name && data.email == other.email && data.cardUID == other.cardUID
    ensures BuildPayload(data, img, cat, cls, prog) == BuildPayload(other, img, cat, cls, prog)
  {
  }

  /** The submit button: disabled only while the mutation is loading. */
  function SubmitDisabled(isLoading: bool, selectedCategory: string, selectedClass: string,
                          selectedProgram: string): (disabled: bool)
    ensures disabled <==> isLoading
  {
    isLoading
  }

  /** The "… is required" hints of step 2; they only inform. */
  function Step2Hints(selectedCategory: string, selectedClass: string, selectedProgram: string): (hints: seq<string>)
    ensures "Category is required" in hints <==> selectedCategory == ""
    ensures "Class level is required" in hints <==> selectedCategory != "" && selectedClass == ""
    ensures "Program is required for TSS" in hints <==> selectedCategory == "TSS" && selectedProgram == ""
  {
    (if selectedCategory == "" then ["Category is required"] else [])
    + (if selectedCategory != "" && selectedClass == "" then ["Class level is required"] else [])
    + (if selectedCategory == "TSS" && selectedProgram == "" then ["Program is required for TSS"] else [])
  }

  /** Hints never disable submission: with every selection missing and the
      mutation idle, the button is enabled. */
  lemma HintsDoNotBlockSubmit()
    ensures |Step2Hints("", "", "")| == 1 && !SubmitDisabled(false, "", "", "")
  {
  }

  // ---------------------------------------------------------------------------
  // The component's state
  // ---------------------------------------------------------------------------

  class Wizard {
    var currentStep: int
    var name: string
    var email: string
    var cardUID: string
    var selectedImage: Option<File>
    var selectedCategory: string
    var selectedClass: string
    var selectedProgram: string

    /** The step is 1 or 2, and step 2 is only reached with validated basics:
        the step-1 inputs are not rendered on step 2, so they cannot change there. */
    ghost predicate Valid()
      reads this
    {
      (currentStep == 1 || currentStep == 2)
      && (currentStep == 2 ==> StepOneValid(name, email, cardUID))
    }

    /** The values of a fresh or reset form. */
    ghost predicate Cleared()
      reads this
    {
      currentStep == 1 && name == "" && email == "" && cardUID == ""
      && selectedImage == None && selectedCategory == "" && selectedClass == "" && selectedProgram == ""
    }

    constructor ()
      ensures Valid() && Cleared()
    {
      currentStep := 1;
      name, email, cardUID := "", "", "";
      selectedImage := None;
      selectedCategory, selectedClass, selectedProgram := "", "", "";
    }

    /** Typing into the step-1 inputs, which only step 1 renders. */
    method EnterBasics(n: string, e: string, c: string)
      requires Valid() && currentStep == 1
      modifies this
      ensures Valid()
      ensures name == n && email == e && cardUID == c
      ensures currentStep == old(currentStep) && selectedImage == old(selectedImage)
      ensures selectedCategory == old(selectedCategory) && selectedClass == old(selectedClass)
      ensures selectedProgram == old(selectedProgram)
    {
      name, email, cardUID := n, e, c;
    }

    /** `handleNextStep`: step 2 exactly when the three fields validate. */
    method HandleNextStep()
      requires Valid()
      modifies this
      ensures Valid()
      ensures StepOneValid(name, email, cardUID) ==> currentStep == 2
      ensures !StepOneValid(name, email, cardUID) ==> currentStep == old(currentStep)
      ensures name == old(name) && email == old(email) && cardUID == old(cardUID)
      ensures selectedImage == old(selectedImage) && selectedCategory == old(selectedCategory)
      ensures selectedClass == old(selectedClass) && selectedProgram == old(selectedProgram)
    {
      if StepOneValid(name, email, cardUID) {
        currentStep := 2;
      }
    }

    /** The Back button of step 2. */
    method Back()
      modifies this
      ensures Valid() && currentStep == 1
      ensures name == old(name) && email == old(email) && cardUID == old(cardUID)
      ensures selectedImage == old(selectedImage) && selectedCategory == old(selectedCategory)
      ensures selectedClass == old(selectedClass) && selectedProgram == old(selectedProgram)
    {
      currentStep := 1;
    }

    /** `handleImageChange`: a chosen file replaces the selection; an empty
        choice keeps it. */
    method HandleImageChange(file: Option<File>)
      requires Valid()
      modifies this
      ensures Valid()
      ensures file.Some? ==> selectedImage == file
      ensures file.None? ==> selectedImage == old(selectedImage)
      ensures currentStep == old(currentStep) && name == old(name) && email == old(email)
      ensures cardUID == old(cardUID) && selectedCategory == old(selectedCategory)
      ensures selectedClass == old(selectedClass) && selectedProgram == old(selectedProgram)
    {
      if file.Some? {
        selectedImage := file;
      }
    }

    /** Choosing a category. The chosen class level is kept, even when it is
        not one of the new category's levels. */
    method SelectCategory(c: string)
      requires Valid()
      modifies this
      ensures Valid()
      ensures selectedCategory == c && selectedClass == old(selectedClass)
      ensures currentStep == old(currentStep) && name == old(name) && email == old(email)
      ensures cardUID == old(cardUID) && selectedImage == old(selectedImage)
      ensures selectedProgram == old(selectedProgram)
    {
      selectedCategory := c;
    }

    method SelectClass(level: string)
      requires Valid()
      modifies this
      ensures Valid()
      ensures selectedClass == level
      ensures currentStep == old(currentStep) && name == old(name) && email == old(email)
      ensures cardUID == old(cardUID) && selectedImage == old(selectedImage)
      ensures selectedCategory == old(selectedCategory) && selectedProgram == old(selectedProgram)
    {
      selectedClass := level;
    }

    method SelectProgram(program: string)
      requires Valid()
      modifies this
      ensures Valid()
      ensures selectedProgram == program
      ensures currentStep == old(currentStep) && name == old(name) && email == old(email)
      ensures cardUID == old(cardUID) && selectedImage == old(selectedImage)
      ensures selectedCategory == old(selectedCategory) && selectedClass == old(selectedClass)
    {
      selectedProgram := program;
    }

    /** `handleSubmit(handleFormSubmit)`: the submit button exists only on
        step 2, and the form data are the values typed on step 1. Returns what
        is passed to `onSubmit`, then resets the form, the step and every
        selection. */
    method HandleFormSubmit() returns (payload: FormData)
      requires Valid() && currentStep == 2
      modifies this
      ensures payload == BuildPayload(FormData(old(name), old(email), old(cardUID), None, "", "", None),
                                      old(selectedImage), old(selectedCategory),
                                      old(selectedClass), old(selectedProgram))
      ensures payload.name == old(name) && payload.email == old(email) && payload.cardUID == old(cardUID)
      ensures StepOneValid(payload.name, payload.email, payload.cardUID)
      ensures Valid() && Cleared()
    {
      var data := FormData(name, email, cardUID, None, "", "", None);
      payload := BuildPayload(data, selectedImage, selectedCategory, selectedClass, selectedProgram);
      name, email, cardUID := "", "", "";
      currentStep := 1;
      selectedImage := None;
      selectedCategory, selectedClass, selectedProgram := "", "", "";
    }
  }
}
