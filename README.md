# formal — a verified model of the form-state hook

`formal` is a form-state hook. It is given initial values, an optional
validation schema, an `onSubmit` handler and an optional `validationType`.
It tracks:

- the current values, and the values last submitted;
- the error message of each field;
- which fields the user has changed, and which field is active;
- three flags: `isValidating`, `isSubmitting` and `isSubmitted`.

From this state it derives `isDirty`, `isValid`, and prop bundles for
fields and for the reset and submit buttons.

The model has three modules:

- `JsValues` (`js_values.dfy`): the JavaScript values a field can hold, and
  truthiness. `Get` reads a property the way the hook means it: an own
  property, or `undefined`. `ReadAsWritten` reads it the way JavaScript does
  on a plain object: a property the object does not own is looked up on
  `Object.prototype`, whose members are truthy. The model uses `Get`; the
  members named `...AsWritten` use `ReadAsWritten`, and "## Findings" lists
  where the two differ.
- `FormalUtils` (`utils.dfy`): the helpers of `packages/formal/src/utils.ts`.
  `FormatYupErrors` is a loop method proved against `FormattedErrors`, a
  declarative specification. That specification says: the keys are the
  reported paths, and each value is the first non-empty message reported for
  its path. `ObjectIsEmpty`, `EqualSets` and `CheckRequired` are functions.
  `FormatAsWritten`, `ObjectIsEmptyAsWritten` and `CheckRequiredAsWritten`
  model the same helpers with JavaScript's property lookup as written.
- `UseFormal` (`use_formal.dfy`): the hook in
  `packages/formal/src/use-formal.ts`.
  - Its state cells live in the class `Form`, whose methods are the
    transitions. `Cells()` gives the state as a `FormCells` value.
  - The derived views (`IsDirty`, `IsValid`, `GetFieldProps`,
    `GetResetButtonProps`, `GetSubmitButtonProps`) are functions of that value.
  - The schema library is an oracle inside `Schema`: the field names with a
    `required` flag each, whether validation goes asynchronous, and the
    results of whole-form and single-field validation.
  - `Validate` and `Submit` are atomic transitions. So no validation is left
    in flight between steps, and `Form.Valid()` records that `isValidating`
    is false at rest.
  - `Form.Valid()` also records that the active field is always one of the
    changed fields. Every transition preserves `Form.Valid()`.

The effect that validates on change (`validationType: 'change'`) is
`Form.ValidateActiveField`. `Form.Edit` is one user edit: `change` followed
by that effect.

## Where the code and its tests disagree

The model follows the code.

- `checkRequired` rejects a required field only when it is `undefined` or
  `''` (`packages/formal/src/utils.ts:59`). A required field holding `null`
  passes, although `packages/formal/__tests__/utils.test.ts:228-245` expects
  `false`. `FormalUtils.CheckRequiredAcceptsNull` proves that the modelled
  code accepts it.
- The test at `packages/formal/__tests__/use-formal.test.ts:58-70` is named
  "should be false if the form contain errors", but it expects `isValid` to
  be true. That is what the code does: without a schema, a clean form is
  valid whatever its errors (`UseFormal.CleanFormWithoutSchemaIsValid`).

## Model

| member | source | states |
|---|---|---|
| `FormalUtils.FormatYupErrors` | packages/formal/src/utils.ts:6-23 | The loop builds exactly `FormattedErrors(e, field)`: the single-field map, or every reported path with its first non-empty message. A non-object, or an object without `inner`, gives `{}`. |
| `FormalUtils.MergedAppend` | packages/formal/src/utils.ts:14-18 | One loop step: an entry is recorded unless its path already holds a non-empty message. |
| `FormalUtils.LaterEntriesNeverOverwrite` | packages/formal/src/utils.ts:15-17 | Once a path holds a non-empty message, no later entries change it. |
| `FormalUtils.FirstNonEmptyWins` | packages/formal/src/utils.ts:14-18 | If entry `j` has the first non-empty message for its path, the result maps that path to that message. |
| `FormalUtils.FormattedMergesInner` | packages/formal/src/utils.ts:13-19 | Outside the single-field branch, the keys are exactly the reported paths. Each message is `""` or a message reported for its path. |
| `FormalUtils.SingleFieldIgnoresInner` | packages/formal/src/utils.ts:10-11 | Given a truthy field that equals the error's path and a message, the result is exactly `{field: message}`, whatever `inner` holds. |
| `FormalUtils.EmptyInnerGivesNoErrors` | packages/formal/src/utils.ts:8-19 | An empty `inner` outside the single-field branch gives `{}`. This includes a named field with no message. |
| `FormalUtils.NonErrorsGiveNoErrors` | packages/formal/src/utils.ts:8 | A value that is not an object with an own `inner` gives `{}`. |
| `FormalUtils.MergeAsWritten` | packages/formal/src/utils.ts:14-18 | The loop as written gives exactly the intended merge with every `Object.prototype` name removed from its keys. |
| `FormalUtils.FormatAsWritten` | packages/formal/src/utils.ts:6-23 | As written, the function throws exactly for `null`. Where it returns, its result is part of the intended result: every key it has is an intended key with the intended message. |
| `FormalUtils.ProtoFieldIsDropped` | packages/formal/src/utils.ts:10-11 | As written, a single-field error on the field `__proto__` gives `{}`. The intended result is `{__proto__: message}`. |
| `FormalUtils.MergeAsWrittenAgrees` | packages/formal/src/utils.ts:14-18 | If no path is an inherited property name, the loop as written equals the intended merge. |
| `FormalUtils.InheritedPathIsDropped` | packages/formal/src/utils.ts:15-16 | As written, an error on a field named `constructor` is lost. The intended result keeps it. |
| `FormalUtils.NullErrorThrows` | packages/formal/src/utils.ts:8 | As written, `null` throws while `undefined` gives `{}`. The intended result for `null` is `{}`. |
| `FormalUtils.ObjectIsEmpty` | packages/formal/src/utils.ts:25-31 | True exactly when the map has no key. |
| `FormalUtils.ObjectIsEmptyAsWritten` | packages/formal/src/utils.ts:25-31 | As written, the check throws exactly when the object owns a key `hasOwnProperty`. Otherwise it agrees with `ObjectIsEmpty`. |
| `FormalUtils.OwnHasOwnPropertyThrows` | packages/formal/src/utils.ts:27 | As written, `{hasOwnProperty: 'required'}` makes the check throw. The intended answer is `false`. |
| `FormalUtils.EqualSets` | packages/formal/src/utils.ts:46-51 | Same size plus inclusion holds exactly when the two sets are equal. |
| `FormalUtils.EqualSetsSymmetric` | packages/formal/src/utils.ts:46-51 | Swapping the two arguments gives the same answer. |
| `FormalUtils.CheckRequired` | packages/formal/src/utils.ts:54-64 | Passes exactly when the schema has no `fields`, or every required field is an own property of the values that is neither `undefined` nor `''`. |
| `FormalUtils.CheckRequiredAsWritten` | packages/formal/src/utils.ts:54-64 | As written, the check passes whatever the intended check passes. It passes more only through a missing required field whose name `Object.prototype` supplies. |
| `FormalUtils.InheritedRequiredFieldPasses` | packages/formal/src/utils.ts:59 | As written, a required field named `constructor` with no value passes. The intended check fails. |
| `FormalUtils.CheckRequiredFailsIff` | packages/formal/src/utils.ts:54-64 | False exactly when some required schema field is missing, `undefined` or `''`. |
| `FormalUtils.CheckRequiredWithoutFields` | packages/formal/src/utils.ts:55 | A schema without `fields` passes any values. |
| `FormalUtils.CheckRequiredAcceptsNull` | packages/formal/src/utils.ts:59 | A required field holding `null` passes the check. |
| `UseFormal.FieldValidationReportsField` | packages/formal/src/use-formal.ts:66-73 | Suppose single-field validation fails with an error whose path is the field and which has a message. Then the errors are exactly that field's message. |
| `UseFormal.InitialCells` | packages/formal/src/use-formal.ts:17-25 | Initially `values = lastValues = initialValues`. There are no errors, no changed or active field, and all three flags are false, so the form is not dirty. |
| `UseFormal.InitialFormIsPristine` | packages/formal/src/use-formal.ts:17-36 | A fresh form is valid without a schema, and both buttons are disabled. |
| `UseFormal.IsDirty` | packages/formal/src/use-formal.ts:27-30 | Dirty exactly when the values and the last submitted values differ in deep equality: a different set of keys, or a key whose two values differ. |
| `UseFormal.IsValid` | packages/formal/src/use-formal.ts:32-36 | Valid exactly when (1) the form is clean or has no errors, and (2) either there is no schema, or the changed fields equal the schema's fields and no required field is blank. |
| `UseFormal.CleanFormWithoutSchemaIsValid` | packages/formal/src/use-formal.ts:32-36 | Without a schema, a clean form is valid even with errors. |
| `UseFormal.InvalidUntilAllFieldsTouched` | packages/formal/src/use-formal.ts:35 | With a schema, the form is invalid while a schema field has not been changed, or while a required field is blank. |
| `UseFormal.GetFieldProps` | packages/formal/src/use-formal.ts:102-109 | `error` is absent exactly when the field has no error. |
| `UseFormal.GetFieldPropsAsWritten` | packages/formal/src/use-formal.ts:102-109 | As written, the props read through `Object.prototype`. For any other field name they agree with `GetFieldProps`: the same `disabled` and `value`, `error` is `undefined` exactly when there is no error, and it is the message otherwise. |
| `UseFormal.InheritedFieldHasError` | packages/formal/src/use-formal.ts:106 | As written, a field named `toString` without an error gets the inherited function as its `error`. The intended `error` is absent. |
| `UseFormal.GetResetButtonProps` | packages/formal/src/use-formal.ts:111-117 | Disabled exactly when the form is clean without errors, or is validating, or is submitting. |
| `UseFormal.GetSubmitButtonProps` | packages/formal/src/use-formal.ts:119-125 | Submit disabled implies reset disabled. Before the first submission the two agree. After it, submit is disabled only while validating or submitting. |
| `UseFormal.Form.constructor` | packages/formal/src/use-formal.ts:13-25 | The hook starts in `InitialCells(initialValues)` with the invariant established, and keeps the schema and validation type it was given. |
| `UseFormal.Form.Change` | packages/formal/src/use-formal.ts:38-45 | Sets `values[field]` and leaves the other fields alone. Adds `field` to the changed fields and makes it active. `lastValues`, errors and flags are unchanged. |
| `UseFormal.Form.Blur` | packages/formal/src/use-formal.ts:134-136 | Only clears the active field. |
| `UseFormal.Form.ClearErrors` | packages/formal/src/use-formal.ts:47-49 | Only empties the errors. |
| `UseFormal.Form.SetErrors` | packages/formal/src/use-formal.ts:21 | Only replaces the errors. |
| `UseFormal.Form.Reset` | packages/formal/src/use-formal.ts:81-84 | `values := lastValues` and `errors := {}`, and nothing else changes. Afterwards the form is clean and error-free, and the reset button is disabled. |
| `UseFormal.Form.Validate` | packages/formal/src/use-formal.ts:51-79 | Without a schema it throws and changes nothing. With a schema it runs single-field or whole-form validation on the current values, and resolves exactly when that passes. The errors end as `{}` on a pass, and as `formatYupErrors(error, field)` on a failure. Nothing else changes, `isValidating` included. |
| `UseFormal.ChangeEffectFires` | packages/formal/src/use-formal.ts:129 | The effect's guard: the form validates on change, and the active field's name and value are truthy. When it holds, the active field is an own property of the values. |
| `UseFormal.Form.ValidateActiveField` | packages/formal/src/use-formal.ts:127-132 | When the form validates on change and the active field's name and value are truthy, validates that field. Otherwise nothing changes. |
| `UseFormal.Form.Edit` | packages/formal/src/use-formal.ts:127-132 | Change, then the effect. A truthy value on a named field of a form that validates on change triggers validation of that field against the new values. Otherwise the errors are unchanged. |
| `UseFormal.Form.Submit` | packages/formal/src/use-formal.ts:86-100 | If there is a schema and whole-form validation fails, it returns. Then only the errors change; `lastValues` and `isSubmitted` do not. Otherwise, if `onSubmit` completes, `lastValues := values`, `isSubmitted` and not `isSubmitting`, so the form is clean. If `onSubmit` throws, `isSubmitting` stays true. |

## Findings

| source | as written | input that shows it | evidently intended | confidence | as-written member | corrected member |
|---|---|---|---|---|---|---|
| packages/formal/src/utils.ts:15-16 | The guard `!errors[err.path]` also reads properties that `{}` inherits from `Object.prototype`. These are truthy, so an error on a field with such a name is never recorded. | `inner = [{path: 'constructor', message: 'required'}]` gives `{}` | `{constructor: 'required'}`: every reported path gets its message | not executed; follows from JavaScript property lookup | `FormalUtils.InheritedPathIsDropped` | `FormalUtils.FormatYupErrors` |
| packages/formal/src/utils.ts:11 | Assigning a string to `errors['__proto__']` calls the prototype setter, which ignores it | single-field error with field `'__proto__'` and a message gives `{}` | `{__proto__: message}` | not executed; follows from JavaScript's `__proto__` setter | `FormalUtils.ProtoFieldIsDropped` | `FormalUtils.SingleFieldIgnoresInner` |
| packages/formal/src/utils.ts:59 | `values[field]` of a missing field reads the `Object.prototype` member, which is neither `undefined` nor `''` | fields `{constructor: required}`, values `{}` gives `true` | `false`: a required field with no value fails | not executed; follows from JavaScript property lookup | `FormalUtils.InheritedRequiredFieldPasses` | `FormalUtils.CheckRequiredFailsIff` |
| packages/formal/src/utils.ts:27 | `obj.hasOwnProperty(key)` calls whatever the object owns under that name | `objectIsEmpty({hasOwnProperty: 'required'})` throws a `TypeError`; `isValid` calls it on the errors | `false` | not executed; follows from JavaScript method lookup | `FormalUtils.OwnHasOwnPropertyThrows` | `FormalUtils.ObjectIsEmpty` |
| packages/formal/src/use-formal.ts:106 | `errors[field]` of a field without an error reads the `Object.prototype` member | `getFieldProps('toString')` with errors `{}` gives a function as `error` | `error` absent | not executed; follows from JavaScript property lookup | `UseFormal.InheritedFieldHasError` | `UseFormal.GetFieldProps` |
| packages/formal/src/utils.ts:8 | `typeof null` is `'object'`, so `null.hasOwnProperty('inner')` runs and throws a `TypeError` | `formatYupErrors(null)` | `{}`, as for `undefined` | not executed; the hook itself only passes values thrown by the schema library | `FormalUtils.NullErrorThrows` | `FormalUtils.NonErrorsGiveNoErrors` |

`FormalUtils.FormatAsWritten`, `FormalUtils.MergeAsWritten`,
`FormalUtils.ObjectIsEmptyAsWritten`, `FormalUtils.CheckRequiredAsWritten`
and `UseFormal.GetFieldPropsAsWritten` model the code as written.
`FormalUtils.MergeAsWritten`'s contract shows that the first finding is the
only difference in the merge loop. The hook uses the corrected
definitions: `FormatYupErrors`, `ObjectIsEmpty`, `CheckRequired` and
`GetFieldProps`.

## Left out

- The schema library's evaluation (`validateSync`, `validate`, `validateAt`, `_exclusive.required`) is not modelled. It is foreign code, so it is the oracle inside `Schema` plus a `required` flag per field.
- `schemaHasAsyncValidation` (packages/formal/src/utils.ts:33-44) is not modelled. It depends on the library's error text, so it is the uninterpreted `Schema.isAsync`.
- Promise timing is not modelled, and neither are the moments in mid-flight when `isValidating` and `isSubmitting` toggle. `Validate` and `Submit` are atomic.
- React machinery is not modelled: `useState`, `useMemo`, `useCallback`, stale closures, and effect scheduling. The validate-on-change effect is a method the caller runs after a change (`Form.Edit`). The model does not re-run it after `reset` when the active field's restored value is truthy.
- `react-fast-compare` deep equality is replaced by value equality on maps. Objects inside values compare by their `id`.
- `onSubmit` is an external effect. Only whether it throws is modelled, as the `onSubmitThrows` parameter of `Form.Submit`.
- The hook is modelled only with object schemas. With a schema that has no `fields`, `Object.keys(undefined)` in `isValid` throws. `CheckRequired` still models the no-`fields` branch of the helper itself.
- The nested `FormalErrors` type of packages/formal/src/types.ts is not modelled. Errors are a flat map from field name to message.
- `change` adds to the `validated` Set in place, so earlier renders see the addition too. That aliasing is not modelled: `validated` is a set value that `Change` reassigns.
- FormalUtils.CheckRequiredFailsIff: states the intended check, which reads own properties only. As written, a missing required field named after an `Object.prototype` member passes; `CheckRequiredAsWritten` and "## Findings" cover that case.
- UseFormal.GetFieldProps: states the intended props, which read own properties only. As written, a field named after an `Object.prototype` member reads the inherited member as its value or error; `GetFieldPropsAsWritten` and "## Findings" cover that case.
- UseFormal.ChangeEffectFires: reads the active field's value as an own property. As written, an active field named after an `Object.prototype` member and missing from the values would read as truthy. Right after `change` the active field is always an own property, so `Form.Edit` is unaffected.
- Some JavaScript values are not modelled: `NaN`, numbers that are not integers (`Num` holds an `int`), an `inner` that is not iterable, entries whose `path` is not a string, and field names that are numbers or symbols.
- Entries of `inner` whose `message` is not a string are not modelled. In JavaScript, `errors[path] = undefined` keeps the key with the value `undefined`. `Errors` maps names to strings only, so it cannot hold that value.
- packages/formal-web/src/use-formal-web.ts (DOM-event glue) and apps/formal-playground-web/src/components/button.tsx (styling) are not part of this model.
