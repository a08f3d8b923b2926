/** The `useFormal` hook with the UI framework stripped away: seven state
    cells, the transitions that change them, and the flags and prop bundles
    derived from them. Validation and submission run as atomic steps. */
module UseFormal {
  import opened JsValues
  import opened FormalUtils

  /** What a validation call of the schema library does: pass, or throw. */
  datatype Outcome = Pass | Fail(error: Thrown)

  /** An object schema, reduced to what the hook uses: the field names with
      a `required` flag each, whether validation of given values goes
      asynchronous, and the two validation calls as oracles (`validateAll`
      for the whole form, `validateAt` for one field). */
  datatype Schema = Schema(
    fields: map<string, bool>,
    isAsync: Values -> bool,
    validateAll: Values -> Outcome,
    validateAt: (string, Values) -> Outcome)

  /** `validationType`: `'change'` or `null`. */
  datatype ValidationType = OnChange | Manual

  /** The result of `validate`: it throws at once without a schema, otherwise
      its promise resolves or rejects. */
  datatype ValidateResult = NoSchema | Resolved | Rejected

  /** How `submit` ends: validation failed and it returned early, `onSubmit`
      threw, or it ran to the end. */
  datatype SubmitResult = ValidationFailed | OnSubmitThrew | Submitted

  /** The state cells of the hook. */
  datatype FormCells = FormCells(
    values: Values,
    lastValues: Values,
    errors: Errors,
    validated: set<string>,
    activeField: Option<string>,
    isValidating: bool,
    isSubmitting: bool,
    isSubmitted: bool)

  datatype FieldProps = FieldProps(disabled: bool, value: Value, error: Option<string>)

  datatype ButtonProps = ButtonProps(disabled: bool)

  /** The schema call `validate(field)` makes. */
  function Check(schema: Schema, values: Values, field: Option<string>): Outcome
  {
    if field.Some? then schema.validateAt(field.value, values) else schema.validateAll(values)
  }

  /** The errors `validate(field)` leaves behind when a schema is given. */
  function ErrorsAfterValidation(schema: Schema, values: Values, field: Option<string>): Errors
  {
    match Check(schema, values, field)
    case Pass => map[]
    case Fail(e) => FormattedErrors(e, field)
  }

  /** Validating one field whose own error names it reports exactly that
      field's message. */
  lemma FieldValidationReportsField(schema: Schema, values: Values, field: string, inner: seq<InnerError>, message: string)
    requires field != "" && message != ""
    requires schema.validateAt(field, values) == Fail(ErrorObject(Some(inner), Some(field), message))
    ensures ErrorsAfterValidation(schema, values, Some(field)) == map[field := message]
  {
  }

  /** The cells right after the hook is first called. */
  function InitialCells(initialValues: Values): (c: FormCells)
    ensures c.values == c.lastValues == initialValues
    ensures !IsDirty(c) && c.errors == map[] && c.validated == {} && c.activeField == None
    ensures !c.isValidating && !c.isSubmitting && !c.isSubmitted
  {
    FormCells(initialValues, initialValues, map[], {}, None, false, false, false)
  }

  /** A fresh form is clean, valid without a schema, and both buttons start
      disabled. */
  lemma InitialFormIsPristine(initialValues: Values)
    ensures var c := InitialCells(initialValues);
      && IsValid(c, None)
      && GetResetButtonProps(c).disabled
      && GetSubmitButtonProps(c).disabled
  {
  }

  /** `isDirty`: the values differ from the last submitted ones, in the
      sense of deep equality: a different set of keys, or a key whose two
      values differ. */
  function IsDirty(c: FormCells): (dirty: bool)
    ensures dirty <==>
      || c.values.Keys != c.lastValues.Keys
      || exists f :: f in c.values && f in c.lastValues && c.values[f] != c.lastValues[f]
  {
    c.values != c.lastValues
  }

  /** `isValid`, given the schema's field flags (`None` without a schema). */
  function IsValid(c: FormCells, schemaFields: Option<map<string, bool>>): (valid: bool)
    ensures valid <==>
      && (c.values == c.lastValues || c.errors == map[])
      && (schemaFields.None? ||
           (c.validated == schemaFields.value.Keys && CheckRequired(schemaFields, c.values)))
  {
    (!IsDirty(c) || ObjectIsEmpty(c.errors))
    && (schemaFields.None? ||
         (EqualSets(schemaFields.value.Keys, c.validated) && CheckRequired(schemaFields, c.values)))
  }

  /** Without a schema, a clean form is valid even while it shows errors. */
  lemma CleanFormWithoutSchemaIsValid(c: FormCells)
    requires !IsDirty(c)
    ensures IsValid(c, None)
  {
  }

  /** With a schema, a form is not valid while some schema field has not
      been changed yet, and not while a required field is blank. */
  lemma InvalidUntilAllFieldsTouched(c: FormCells, fields: map<string, bool>, f: string)
    requires f in fields
    requires f !in c.validated || (fields[f] && IsBlank(Get(c.values, f)))
    ensures !IsValid(c, Some(fields))
  {
  }

  /** `getFieldProps(field)`, reading own properties only. */
  function GetFieldProps(c: FormCells, field: string): (props: FieldProps)
    ensures props.error.None? <==> field !in c.errors
  {
    FieldProps(c.isSubmitting, Get(c.values, field), if field in c.errors then Some(c.errors[field]) else None)
  }

  /** `getFieldProps(field)` as written: `values[field]` and `errors[field]`
      read through to `Object.prototype`. The error is whatever that read
      gives. Away from inherited names it agrees with `GetFieldProps`. */
  function GetFieldPropsAsWritten(c: FormCells, field: string): (props: (bool, Value, Value))
    ensures field !in ObjectPrototypeNames ==>
      && props.0 == GetFieldProps(c, field).disabled
      && props.1 == GetFieldProps(c, field).value
      && (props.2 == Undefined <==> GetFieldProps(c, field).error.None?)
      && (GetFieldProps(c, field).error.Some? ==> props.2 == Str(GetFieldProps(c, field).error.value))
  {
    (c.isSubmitting, ReadAsWritten(c.values, field), ReadAsWritten(ErrorValues(c.errors), field))
  }

  /** A field named `toString` without an error gets the inherited function
      as its error, where it should get none. */
  lemma InheritedFieldHasError(c: FormCells)
    requires "toString" !in c.errors
    ensures GetFieldPropsAsWritten(c, "toString").2 == Builtin("toString")
    ensures GetFieldProps(c, "toString").error == None
  {
    assert "toString" !in ErrorValues(c.errors);
  }

  /** `getResetButtonProps()`: nothing to reset, or busy. */
  function GetResetButtonProps(c: FormCells): (props: ButtonProps)
    ensures props.disabled <==>
      (c.values == c.lastValues && c.errors == map[]) || c.isValidating || c.isSubmitting
  {
    ButtonProps((!IsDirty(c) && ObjectIsEmpty(c.errors)) || c.isValidating || c.isSubmitting)
  }

  /** `getSubmitButtonProps()`: like reset, except that a submitted form can
      always be submitted again when it is not busy. */
  function GetSubmitButtonProps(c: FormCells): (props: ButtonProps)
    ensures props.disabled ==> GetResetButtonProps(c).disabled
    ensures !c.isSubmitted ==> props == GetResetButtonProps(c)
    ensures c.isSubmitted ==> (props.disabled <==> c.isValidating || c.isSubmitting)
  {
    ButtonProps((!IsDirty(c) && !c.isSubmitted && ObjectIsEmpty(c.errors)) || c.isValidating || c.isSubmitting)
  }

  /** Whether the effect that validates on change fires for these cells:
      the form validates on change, and the active field's name and value
      are both truthy. */
  predicate ChangeEffectFires(c: FormCells, validationType: ValidationType)
    ensures ChangeEffectFires(c, validationType) ==>
      c.activeField.Some? && c.activeField.value in c.values && c.activeField.value != ""
  {
    && validationType == OnChange
    && c.activeField.Some?
    && c.activeField.value != ""
    && Truthy(Get(c.values, c.activeField.value))
  }

  /** One mounted `useFormal` hook. */
  class Form {
    const schema: Option<Schema>
    const validationType: ValidationType

    var lastValues: Values
    var values: Values
    var validated: set<string>
    var activeField: Option<string>
    var errors: Errors
    var isValidating: bool
    var isSubmitting: bool
    var isSubmitted: bool

    /** The cells as the current render sees them. */
    function Cells(): FormCells
      reads this
    {
      FormCells(values, lastValues, errors, validated, activeField, isValidating, isSubmitting, isSubmitted)
    }

    /** The schema's field flags, `None` without a schema. */
    function SchemaFields(): Option<map<string, bool>>
    {
      if schema.Some? then Some(schema.value.fields) else None
    }

    /** The active field has been changed, and with every step atomic no
        validation is ever left in flight. */
    ghost predicate Valid()
      reads this
    {
      && (activeField.Some? ==> activeField.value in validated)
      && !isValidating
    }

    constructor (initialValues: Values, schema: Option<Schema>, validationType: ValidationType)
      ensures Valid()
      ensures Cells() == InitialCells(initialValues)
      ensures this.schema == schema
      ensures this.validationType == validationType
      ensures SchemaFields() == if schema.Some? then Some(schema.value.fields) else None
    {
      this.schema := schema;
      this.validationType := validationType;
      lastValues := initialValues;
      values := initialValues;
      validated := {};
      activeField := None;
      errors := map[];
      isValidating := false;
      isSubmitting := false;
      isSubmitted := false;
    }

    /** `change(field, value)`: store the value, mark the field changed and
        active. */
    method Change(field: string, value: Value)
      requires Valid()
      modifies this
      ensures Valid()
      ensures Cells() == old(Cells()).(values := old(values)[field := value],
                                       validated := old(validated) + {field},
                                       activeField := Some(field))
      ensures Get(values, field) == value
      ensures forall f :: f != field ==> Get(values, f) == Get(old(values), f)
    {
      values := values[field := value];
      validated := validated + {field};
      activeField := Some(field);
    }

    /** `blur()`: no field is active any more. */
    method Blur()
      requires Valid()
      modifies this
      ensures Valid()
      ensures Cells() == old(Cells()).(activeField := None)
    {
      activeField := None;
    }

    /** `clearErrors()`. */
    method ClearErrors()
      requires Valid()
      modifies this
      ensures Valid()
      ensures Cells() == old(Cells()).(errors := map[])
    {
      errors := map[];
    }

    /** `setErrors(newErrors)`. */
    method SetErrors(newErrors: Errors)
      requires Valid()
      modifies this
      ensures Valid()
      ensures Cells() == old(Cells()).(errors := newErrors)
    {
      errors := newErrors;
    }

    /** `reset()`: back to the last submitted values, without errors. */
    method Reset()
      requires Valid()
      modifies this
      ensures Valid()
      ensures Cells() == old(Cells()).(values := old(lastValues), errors := map[])
      ensures !IsDirty(Cells()) && ObjectIsEmpty(errors)
      ensures GetResetButtonProps(Cells()).disabled
    {
      values := lastValues;
      ClearErrors();
    }

    /** `validate(field)`: throws without a schema; otherwise clears the
        errors, runs the schema on the current values (one field, or the
        whole form) and on failure records the shaped errors. */
    method Validate(field: Option<string>) returns (r: ValidateResult)
      requires Valid()
      modifies this
      ensures Valid()
      ensures schema.None? ==> r == NoSchema && Cells() == old(Cells())
      ensures schema.Some? ==>
        && Cells() == old(Cells()).(errors := ErrorsAfterValidation(schema.value, old(values), field))
        && (r == Resolved <==> Check(schema.value, old(values), field).Pass?)
        && (r == Rejected <==> Check(schema.value, old(values), field).Fail?)
    {
      if schema.None? {
        return NoSchema;
      }
      var s := schema.value;
      var isAsync := s.isAsync(values);
      ClearErrors();
      if isAsync {
        isValidating := true;
      }
      var outcome := Check(s, values, field);
      match outcome {
        case Pass =>
          r := Resolved;
        case Fail(e) =>
          errors := FormatYupErrors(e, field);
          r := Rejected;
      }
      if isAsync {
        isValidating := false;
      }
    }

    /** The effect that runs after a render in which the values or the
        changed fields moved: with validation on change, validate the active
        field when its name and its value are truthy. `None` when nothing
        ran. */
    method ValidateActiveField() returns (r: Option<ValidateResult>)
      requires Valid()
      modifies this
      ensures Valid()
      ensures !ChangeEffectFires(old(Cells()), validationType) ==> r == None && Cells() == old(Cells())
      ensures ChangeEffectFires(old(Cells()), validationType) ==>
        && r.Some? && (r.value == NoSchema <==> schema.None?)
        && Cells() == old(Cells()).(errors :=
             if schema.None? then old(errors)
             else ErrorsAfterValidation(schema.value, old(values), old(activeField)))
    {
      if ChangeEffectFires(Cells(), validationType) {
        var v := Validate(activeField);
        r := Some(v);
      } else {
        r := None;
      }
    }

    /** A change as the user sees it: `change(field, value)` and then the
        effect. With validation on change, a truthy value on a named field
        validates that field against the new values. */
    method Edit(field: string, value: Value) returns (r: Option<ValidateResult>)
      requires Valid()
      modifies this
      ensures Valid()
      ensures values == old(values)[field := value]
      ensures validated == old(validated) + {field} && activeField == Some(field)
      ensures lastValues == old(lastValues)
      ensures isSubmitting == old(isSubmitting) && isSubmitted == old(isSubmitted)
      ensures var fires := validationType == OnChange && field != "" && Truthy(value);
        && (r.Some? <==> fires)
        && errors == (if fires && schema.Some? then ErrorsAfterValidation(schema.value, values, Some(field))
                      else old(errors))
    {
      Change(field, value);
      r := ValidateActiveField();
    }

    /** `submit()`: validate the whole form when there is a schema and stop
        if that fails; otherwise hand the values to `onSubmit` (which may
        throw, `onSubmitThrows`) and remember them as the last submitted. */
    method Submit(onSubmitThrows: bool) returns (r: SubmitResult)
      requires Valid()
      modifies this
      ensures Valid()
      ensures var passes := schema.None? || Check(schema.value, old(values), None).Pass?;
        var checkedErrors := if schema.None? then old(errors) else ErrorsAfterValidation(schema.value, old(values), None);
        if !passes then
          r == ValidationFailed && Cells() == old(Cells()).(errors := checkedErrors)
        else if onSubmitThrows then
          r == OnSubmitThrew && Cells() == old(Cells()).(errors := checkedErrors, isSubmitting := true)
        else
          r == Submitted &&
          Cells() == old(Cells()).(errors := checkedErrors, lastValues := old(values),
                                   isSubmitted := true, isSubmitting := false)
      ensures r == Submitted ==> !IsDirty(Cells()) && isSubmitted && !isSubmitting
      ensures r == ValidationFailed ==> lastValues == old(lastValues) && isSubmitted == old(isSubmitted)
    {
      if schema.Some? {
        var v := Validate(None);
        if v != Resolved {
          return ValidationFailed;
        }
      }
      isSubmitting := true;
      if onSubmitThrows {
        return OnSubmitThrew;
      }
      lastValues := values;
      isSubmitted := true;
      isSubmitting := false;
      r := Submitted;
    }
  }
}
