/** Project authorization of AbstractEditPresenter: the current user may work on an
    entity when one of the user's projects has the entity's project id. The
    security context is replaced by the user's project list, and the subclass's
    getProjectByEntity by the entity's project, which may be null. */
module Authorization {
  import opened Outcomes
  import opened EditPresenter

  datatype Project = Project(id: int)

  /** The only way the check can fail: dereferencing a null entity project. */
  datatype Fault = NullProject

  /** The user's project list contains a project with id `projectId`. */
  ghost predicate HasProject(userProjects: seq<Project>, projectId: int) {
    exists i :: 0 <= i < |userProjects| && userProjects[i].id == projectId
  }

  /** checkUserProjectAuthority: scan every project of the user, without stopping
      early, and remember whether one of them has the entity's project id. A null
      entity project is dereferenced on the first comparison, so it fails exactly
      when the user has at least one project. */
  method CheckUserProjectAuthority(userProjects: seq<Project>, current: Option<Project>)
    returns (r: Result<bool, Fault>)
    ensures r.Failure? <==> current.None? && |userProjects| > 0
    ensures r.Success? ==> (r.value <==> current.Some? && HasProject(userProjects, current.value.id))
  {
    var authorized := false;
    var i := 0;
    while i < |userProjects|
      invariant 0 <= i <= |userProjects|
      invariant i > 0 ==> current.Some?
      invariant authorized <==> exists j :: 0 <= j < i && userProjects[j].id == current.value.id
    {
      if current.None? {
        return Failure(NullProject);
      }
      if userProjects[i].id == current.value.id {
        authorized := true;
      }
      i := i + 1;
    }
    return Success(authorized);
  }

  /** isAuthorized: run the check and show "not authorized" when it is denied. A
      denial is only reported; the method returns normally either way. */
  method IsAuthorized(userProjects: seq<Project>, current: Option<Project>)
    returns (r: Result<seq<Effect>, Fault>)
    ensures r.Failure? <==> current.None? && |userProjects| > 0
    ensures current.Some? ==> r.Success?
    ensures r.Success? ==>
              && (r.value == [] || r.value == [NotAuthorizedShown])
              && (r.value == [NotAuthorizedShown] <==> !(current.Some? && HasProject(userProjects, current.value.id)))
  {
    var check := CheckUserProjectAuthority(userProjects, current);
    if check.Failure? {
      return Failure(check.error);
    }
    if !check.value {
      return Success([NotAuthorizedShown]);
    }
    return Success([]);
  }
}
