/** The authorisation pre-step every CRUD operation runs first. */
module Crud {
  import opened Wrappers
  import opened Domain
  import opened CrudOperation

  /** A service either is not an AuthorizedCrud, or has an authorization manager whose
      decision for the current principal and an operation is `granted`. */
  datatype Authorization = Unsecured | Authorized(granted: CrudOperation -> bool)

  /** `Crud.preProccess`: None when the operation may go ahead, otherwise the exception the
      authorization manager throws. */
  function PreProcess(auth: Authorization, op: CrudOperation): (r: Option<Exception>)
    ensures r.None? <==> auth.Unsecured? || auth.granted(op)
    ensures r.Some? ==> r.value == AccessDenied("Access Denied")
  {
    match auth
    case Unsecured => None
    case Authorized(granted) => if granted(op) then None else Some(AccessDenied("Access Denied"))
  }
}
