/** The two route guards of the backend: `ensureAuthenticated` and
    `ensureAdmin`. A request carries the session's user, reduced to the
    fields the guards and handlers read. */
module Access {

  datatype Actor = Actor(id: string, role: string, username: string, authenticated: bool)

  /** The guard's single outcome: the route runs, or the request is answered
      with a status code and a message. */
  datatype Gate = Next | Deny(code: int, message: string)

  predicate IsAdmin(a: Actor) {
    a.role == "admin"
  }

  /** `ensureAuthenticated`: the route runs exactly for an authenticated
      request; any other request gets 401. */
  function EnsureAuthenticated(a: Actor): (g: Gate)
    ensures g.Next? <==> a.authenticated
    ensures g.Deny? ==> g.code == 401
  {
    if a.authenticated then Next else Deny(401, "Unauthorized")
  }

  /** `ensureAdmin`: 401 before any role check, then 403 for a non-admin. */
  function EnsureAdmin(a: Actor): (g: Gate)
    ensures g.Next? <==> a.authenticated && IsAdmin(a)
    ensures !a.authenticated ==> g.Deny? && g.code == 401
    ensures a.authenticated && !IsAdmin(a) ==> g.Deny? && g.code == 403
  {
    if a.authenticated then
      if IsAdmin(a) then Next else Deny(403, "Forbidden: You are not an admin.")
    else Deny(401, "Unauthorized: Please login first.")
  }

  /** An admin check never lets through more than the authentication check. */
  lemma {:induction false} AdminImpliesAuthenticated(a: Actor)
    ensures EnsureAdmin(a).Next? ==> EnsureAuthenticated(a).Next?
    ensures EnsureAuthenticated(a).Deny? ==> EnsureAdmin(a) == Deny(401, "Unauthorized: Please login first.")
  {
  }
}
