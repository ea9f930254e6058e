/** The audit-carrying part of every persisted entity (AbstractBaseEntity in the
    repository). Only the fields the edit presenter reads or writes are modelled;
    everything else an entity holds is folded into `payload`. */
module Entities {
  import opened Outcomes

  /** A reading of the clock; the model never reads a clock itself. */
  type Timestamp = int

  datatype Entity = Entity(
    id: Option<int>,
    dateCreated: Option<Timestamp>,
    createdUser: Option<string>,
    dateUpdated: Option<Timestamp>,
    updatedUser: Option<string>,
    payload: string)
  {
    /** An entity is new until the service has given it an identifier. */
    predicate IsNew() {
      id.None?
    }
  }
}
