/** The goal record shared by every component of the planner, and the small
    value types the forms and handlers exchange. */
module Goals {

  datatype Option<+T> = None | Some(value: T)

  /** A JavaScript number as produced by `parseFloat`/`Number`: either NaN or
      a finite value. Amounts are modelled as exact reals. */
  datatype JsNumber = NaN | Num(value: real)

  /** Goal identifiers are opaque strings assigned by the backend (or a UUID). */
  type Id = string

  /** A savings goal as stored by the backend and mirrored by the app. */
  datatype Goal = Goal(
    id: Id,
    name: string,
    targetAmount: real,
    savedAmount: real,
    category: string,
    deadline: string,
    createdAt: string)

  /** The body the add form posts: a goal that has no id yet. */
  datatype Draft = Draft(
    name: string,
    targetAmount: real,
    savedAmount: real,
    category: string,
    deadline: string,
    createdAt: string)

  /** A call of a deposit callback: which goal, and how much. */
  datatype DepositCall = DepositCall(goalId: Id, amount: real)

  /** Some entry of `goals` carries `id`. */
  predicate HasId(goals: seq<Goal>, id: Id) {
    exists i :: 0 <= i < |goals| && goals[i].id == id
  }

  /** No two entries of `goals` share an id (the backend's guarantee). */
  predicate UniqueIds(goals: seq<Goal>) {
    forall i, j :: 0 <= i < j < |goals| ==> goals[i].id != goals[j].id
  }
}
