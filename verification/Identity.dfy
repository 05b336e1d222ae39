/** Token claims and the subject id they carry. */
module Identity {
  import opened Prelude

  const EMPLOYEE := "employee"
  const CLIENT := "client"

  const UINT_LIMIT: nat := 0x1_0000_0000_0000_0000

  /** Go's 64-bit `uint`. */
  type uint = n: nat | n < UINT_LIMIT

  datatype ClaimSet = ClaimSet(identityID: uint, identityType: string, clientID: Option<uint>, employeeID: Option<uint>)

  datatype Subject = Present(id: uint) | Absent | Unsupported

  function SubjectID(c: ClaimSet): Subject {
    if c.identityType == EMPLOYEE then
      if c.employeeID.None? then Absent else Present(c.employeeID.value)
    else if c.identityType == CLIENT then
      if c.clientID.None? then Absent else Present(c.clientID.value)
    else Unsupported
  }

  predicate Supported(identityType: string) {
    identityType == EMPLOYEE || identityType == CLIENT
  }

  /** The claims after an assignment; an unsupported type is refused and changes nothing. */
  function Assigned(c: ClaimSet, identityType: string, id: uint): ClaimSet {
    if identityType == EMPLOYEE then c.(employeeID := Some(id), clientID := None)
    else if identityType == CLIENT then c.(clientID := Some(id), employeeID := None)
    else c
  }

  class Claims {
    var identityID: uint
    var identityType: string
    var clientID: Option<uint>
    var employeeID: Option<uint>

    constructor (c: ClaimSet)
      ensures View() == c
    {
      identityID, identityType, clientID, employeeID := c.identityID, c.identityType, c.clientID, c.employeeID;
    }

    function View(): ClaimSet
      reads this
    {
      ClaimSet(identityID, identityType, clientID, employeeID)
    }
  }

  /** Reads the subject of possibly missing claims. */
  method SubjectIDFromClaims(claims: Claims?) returns (id: uint, present: bool, failed: bool)
    ensures failed <==> claims == null || SubjectID(claims.View()).Unsupported?
    ensures present <==> claims != null && SubjectID(claims.View()).Present?
    ensures id == if present then SubjectID(claims.View()).id else 0
  {
    id, present, failed := 0, false, false;
    if claims == null {
      failed := true;
      return;
    }
    if claims.identityType == EMPLOYEE {
      if claims.employeeID.Some? {
        id, present := claims.employeeID.value, true;
      }
    } else if claims.identityType == CLIENT {
      if claims.clientID.Some? {
        id, present := claims.clientID.value, true;
      }
    } else {
      failed := true;
    }
  }

  method SetSubjectIDOnClaims(claims: Claims?, identityType: string, subjectID: uint) returns (failed: bool)
    modifies if claims == null then {} else {claims}
    ensures failed <==> claims == null || !Supported(identityType)
    ensures claims != null ==> claims.View() == Assigned(old(claims.View()), identityType, subjectID)
  {
    if claims == null {
      return true;
    }
    if identityType == EMPLOYEE {
      claims.employeeID := Some(subjectID);
      claims.clientID := None;
    } else if identityType == CLIENT {
      claims.clientID := Some(subjectID);
      claims.employeeID := None;
    } else {
      return true;
    }
    return false;
  }

  datatype Attempt = Attempt(identityType: string, id: uint)

  function AssignAll(c: ClaimSet, attempts: seq<Attempt>): ClaimSet {
    if attempts == [] then c
    else
      var last := attempts[|attempts| - 1];
      Assigned(AssignAll(c, attempts[..|attempts| - 1]), last.identityType, last.id)
  }

  /** The last attempt that was not refused. */
  function LastAccepted(attempts: seq<Attempt>): Option<Attempt> {
    if attempts == [] then None
    else if Supported(attempts[|attempts| - 1].identityType) then Some(attempts[|attempts| - 1])
    else LastAccepted(attempts[..|attempts| - 1])
  }

  /** After any sequence of assignments the claims hold exactly the id of the last accepted one, and they
      are untouched when every one was refused. The claims' own type is never rewritten, so reading them
      back under that type gives the id if and only if that type is the accepted one. */
  lemma {:induction false} LastAssignmentWins(c: ClaimSet, attempts: seq<Attempt>)
    ensures var d, last := AssignAll(c, attempts), LastAccepted(attempts);
      && d.identityType == c.identityType && d.identityID == c.identityID
      && (last.None? ==> d == c)
      && (last.Some? ==>
            && (d.clientID.Some? <==> d.employeeID.None?)
            && SubjectID(d.(identityType := last.value.identityType)) == Present(last.value.id)
            && (SubjectID(d) == Present(last.value.id) <==> c.identityType == last.value.identityType)
            && (SubjectID(d).Absent? <==> Supported(c.identityType) && c.identityType != last.value.identityType))
  {
    if attempts != [] {
      LastAssignmentWins(c, attempts[..|attempts| - 1]);
    }
  }

  /** Where it fails: claims typed as a client's hold an assigned employee id, and read back have no subject. */
  lemma ClientTypedClaimsLoseAnEmployee(id: uint)
    ensures var d := AssignAll(ClaimSet(1, CLIENT, None, None), [Attempt(EMPLOYEE, id)]);
      d.employeeID == Some(id) && SubjectID(d).Absent?
  {
    var attempts := [Attempt(EMPLOYEE, id)];
    assert attempts[..|attempts| - 1] == [];
  }

  /** What the remote permission service rebuilds from the request that carries `c`; id 0 stands for none. */
  function RebuiltRemotely(c: ClaimSet): ClaimSet
    requires Supported(c.identityType)
  {
    var wire := match SubjectID(c) case Present(id) => id case _ => 0;
    var bare := ClaimSet(c.identityID, c.identityType, None, None);
    if wire > 0 then Assigned(bare, c.identityType, wire) else bare
  }

  /** The subject survives the trip to the permission service exactly when it is not a present zero. */
  lemma SubjectSurvivesTheWire(c: ClaimSet)
    requires Supported(c.identityType)
    ensures SubjectID(RebuiltRemotely(c)) == SubjectID(c) <==> SubjectID(c) != Present(0)
  {
    if SubjectID(c) == Present(0) {
      assert SubjectID(RebuiltRemotely(c)).Absent?;
    }
  }
}
