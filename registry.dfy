// Field-type dispatch (do_field_method): a field's `type` names the
// generator method `generate_{type}_field`, which runs when the class
// defines it. PHP looks method names up case-insensitively, so the
// registry is keyed by lower-cased type tags; an unknown type renders
// nothing.

module FieldRegistry {
  import opened PhpValues

  /** The field generators the class defines, one per `generate_*_field` method. */
  datatype Generator =
    | TextField | HiddenField | NumberField | TimeField | DateField
    | ExportField | ImportField | GroupField | ImageCheckboxesField
    | ImageRadioField | SelectField | PasswordField | TextareaField
    | RadioField | CheckboxField | ToggleField | CheckboxesField
    | ColorField | FileField | EditorField | CodeEditorField
    | CustomField | MultiinputsField

  /** The type tag that selects each generator (the middle of its method name). */
  function Tag(g: Generator): string {
    match g
    case TextField => "text"
    case HiddenField => "hidden"
    case NumberField => "number"
    case TimeField => "time"
    case DateField => "date"
    case ExportField => "export"
    case ImportField => "import"
    case GroupField => "group"
    case ImageCheckboxesField => "image_checkboxes"
    case ImageRadioField => "image_radio"
    case SelectField => "select"
    case PasswordField => "password"
    case TextareaField => "textarea"
    case RadioField => "radio"
    case CheckboxField => "checkbox"
    case ToggleField => "toggle"
    case CheckboxesField => "checkboxes"
    case ColorField => "color"
    case FileField => "file"
    case EditorField => "editor"
    case CodeEditorField => "code_editor"
    case CustomField => "custom"
    case MultiinputsField => "multiinputs"
  }

  /** The generator registered under a lower-cased type tag, if any. */
  function Registered(t: string): Option<Generator> {
    match t
    case "text" => Some(TextField)
    case "hidden" => Some(HiddenField)
    case "number" => Some(NumberField)
    case "time" => Some(TimeField)
    case "date" => Some(DateField)
    case "export" => Some(ExportField)
    case "import" => Some(ImportField)
    case "group" => Some(GroupField)
    case "image_checkboxes" => Some(ImageCheckboxesField)
    case "image_radio" => Some(ImageRadioField)
    case "select" => Some(SelectField)
    case "password" => Some(PasswordField)
    case "textarea" => Some(TextareaField)
    case "radio" => Some(RadioField)
    case "checkbox" => Some(CheckboxField)
    case "toggle" => Some(ToggleField)
    case "checkboxes" => Some(CheckboxesField)
    case "color" => Some(ColorField)
    case "file" => Some(FileField)
    case "editor" => Some(EditorField)
    case "code_editor" => Some(CodeEditorField)
    case "custom" => Some(CustomField)
    case "multiinputs" => Some(MultiinputsField)
    case _ => None
  }

  /** The method name do_field_method builds from a type. */
  function MethodName(fieldType: string): string {
    "generate_" + fieldType + "_field"
  }

  /** method_exists on the class, for names of the `generate_*_field` shape (PHP ignores case). */
  ghost predicate MethodExists(name: string) {
    exists t :: Registered(t).Some? && Lower(name) == MethodName(t)
  }

  /**
   * do_field_method: the generator that runs for a field type, or None when
   * nothing is rendered. It is the generator whose tag the type is, up to
   * case, and one runs exactly when method_exists finds the method.
   */
  function Dispatch(fieldType: string): (r: Option<Generator>)
    ensures forall g :: r == Some(g) <==> Lower(fieldType) == Tag(g)
    ensures r.Some? <==> MethodExists(MethodName(fieldType))
  {
    var t := Lower(fieldType);
    assert forall g :: Registered(t) == Some(g) <==> t == Tag(g) by {
      forall g ensures Registered(t) == Some(g) <==> t == Tag(g) {
        RegisteredIff(t, g);
      }
    }
    RegisteredMatchesMethodExists(fieldType);
    Registered(t)
  }

  // ---------------------------------------------------------------------
  // Properties

  /** Every tag is lower case, so lower-casing a tag gives the tag back. */
  lemma TagIsLowerCase(g: Generator)
    ensures IsLowerText(Tag(g))
  {
  }

  /** The registry holds each generator under its own tag only. */
  lemma RegisteredSound(t: string, g: Generator)
    requires Registered(t) == Some(g)
    ensures Tag(g) == t
  {
    match t
    case "text" =>
    case "hidden" =>
    case "number" =>
    case "time" =>
    case "date" =>
    case "export" =>
    case "import" =>
    case "group" =>
    case "image_checkboxes" =>
    case "image_radio" =>
    case "select" =>
    case "password" =>
    case "textarea" =>
    case "radio" =>
    case "checkbox" =>
    case "toggle" =>
    case "checkboxes" =>
    case "color" =>
    case "file" =>
    case "editor" =>
    case "code_editor" =>
    case "custom" =>
    case "multiinputs" =>
  }

  /** Every generator is registered under its tag. */
  lemma RegisteredTag(g: Generator)
    ensures Registered(Tag(g)) == Some(g)
  {
  }

  /** Every generator is reached by its own tag. */
  lemma DispatchTag(g: Generator)
    ensures Dispatch(Tag(g)) == Some(g)
  {
    TagIsLowerCase(g);
    LowerOfLowerText(Tag(g));
  }

  /** The registry holds g under exactly one tag, its own. */
  lemma RegisteredIff(t: string, g: Generator)
    ensures Registered(t) == Some(g) <==> t == Tag(g)
  {
    if Registered(t) == Some(g) {
      RegisteredSound(t, g);
    }
    if t == Tag(g) {
      RegisteredTag(g);
    }
  }

  lemma LowerMethodName(fieldType: string)
    ensures Lower(MethodName(fieldType)) == MethodName(Lower(fieldType))
  {
    LowerConcat("generate_" + fieldType, "_field");
    LowerConcat("generate_", fieldType);
    LowerOfLowerText("generate_");
    LowerOfLowerText("_field");
  }

  lemma MethodNameInjective(a: string, b: string)
    requires MethodName(a) == MethodName(b)
    ensures a == b
  {
    var n := MethodName(a);
    assert a == n[9..|n| - 6];
    assert b == MethodName(b)[9..|n| - 6];
  }

  /** The registry agrees with method_exists: a generator is registered under the lower-cased type exactly when the method exists. */
  lemma RegisteredMatchesMethodExists(fieldType: string)
    ensures Registered(Lower(fieldType)).Some? <==> MethodExists(MethodName(fieldType))
  {
    LowerMethodName(fieldType);
    var t := Lower(fieldType);
    if MethodExists(MethodName(fieldType)) {
      var u :| Registered(u).Some? && Lower(MethodName(fieldType)) == MethodName(u);
      MethodNameInjective(u, t);
    }
  }

  /** Types that differ only in case from a tag reach its generator; unknown types render nothing. */
  lemma DispatchExamples()
    ensures Dispatch("Text") == Some(TextField)
    ensures Dispatch("GROUP") == Some(GroupField)
    ensures Dispatch("slider") == None
    ensures Dispatch("") == None
  {
    assert Lower("Text") == "text";
    assert Lower("GROUP") == "group";
    assert Lower("slider") == "slider";
  }
}
