/** The stand-alone goal form: its state is one record of four text fields,
    each input's change handler overwrites one field, and submitting builds a
    new goal with a fresh id and then clears the form. */
module SmartGoalForm {
  import opened Goals

  /** The four named inputs of the form. */
  datatype Field = Name | TargetAmount | Category | Deadline

  datatype FormData = FormData(name: string, targetAmount: string, category: string, deadline: string)

  const EmptyForm: FormData := FormData("", "", "", "")

  function FieldValue(data: FormData, field: Field): string {
    match field
    case Name => data.name
    case TargetAmount => data.targetAmount
    case Category => data.category
    case Deadline => data.deadline
  }

  /** The form data after an input named `field` reports `value`: that field
      holds the value and every other field keeps its own. */
  function WithField(data: FormData, field: Field, value: string): (d: FormData)
    ensures FieldValue(d, field) == value
    ensures forall f :: f != field ==> FieldValue(d, f) == FieldValue(data, f)
  {
    match field
    case Name => data.(name := value)
    case TargetAmount => data.(targetAmount := value)
    case Category => data.(category := value)
    case Deadline => data.(deadline := value)
  }

  /** Changes to two different inputs commute, a later change to the same
      input overrides an earlier one, and re-reporting a field's own value
      changes nothing. */
  lemma ChangesCommute(data: FormData, f1: Field, v1: string, f2: Field, v2: string)
    ensures f1 != f2 ==> WithField(WithField(data, f1, v1), f2, v2) == WithField(WithField(data, f2, v2), f1, v1)
    ensures WithField(WithField(data, f1, v1), f1, v2) == WithField(data, f1, v2)
    ensures WithField(data, f1, FieldValue(data, f1)) == data
  {
  }

  /** The goal submitted from the form: name, category and deadline copied,
      the target converted to a number, the supplied id and date, nothing saved. */
  function NewGoal(data: FormData, id: Id, target: real, createdAt: string): (g: Goal)
    ensures g.id == id && g.savedAmount == 0.0 && g.createdAt == createdAt
    ensures g.name == data.name && g.category == data.category && g.deadline == data.deadline
    ensures g.targetAmount == target
  {
    Goal(id, data.name, target, 0.0, data.category, data.deadline, createdAt)
  }

  class Form {
    var formData: FormData

    constructor ()
      ensures formData == EmptyForm
    {
      formData := EmptyForm;
    }

    /** An input reports a new value. */
    method HandleChange(field: Field, value: string)
      modifies this
      ensures formData == WithField(old(formData), field, value)
    {
      formData := WithField(formData, field, value);
    }

    /** Submits the form: `id` is the freshly generated identifier, `target`
        the numeric conversion of the target text and `createdAt` today's
        date. The built goal is handed to the parent and the form is cleared. */
    method HandleSubmit(id: Id, target: real, createdAt: string) returns (newGoal: Goal)
      modifies this
      ensures newGoal == NewGoal(old(formData), id, target, createdAt)
      ensures forall f :: FieldValue(formData, f) == ""
    {
      newGoal := NewGoal(formData, id, target, createdAt);
      formData := EmptyForm;
    }
  }
}
