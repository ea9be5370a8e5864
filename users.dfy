/**
 * routes/users.js: the dashboard listing `/projects/list`, the metadata
 * update handler `/projects/update` with its collaborator sub-protocol, the
 * escaping of e-mail addresses into collaborator keys, and the role chosen
 * at `/register`. The project collection is an in-memory sequence of records
 * and the user collection a set of registered e-mail addresses.
 */
module Users {
  import opened Wrappers
  import opened Strings

  // ---------------------------------------------------------------------------
  // E-mail addresses as collaborator keys.
  // ---------------------------------------------------------------------------

  /** The sentinel that stands for `.` inside a collaborator key. */
  const DotToken: string := "[dot]"

  /** `email.replace(/\./g, '[dot]')` (routes/users.js:39, 68). */
  function EscapeEmail(email: string): (key: string)
    ensures '.' !in key
    ensures |key| >= |email|
  {
    if email == [] then []
    else (if email[0] == '.' then DotToken else [email[0]]) + EscapeEmail(email[1..])
  }

  /** `key.split("[dot]").join(".")` (routes/users.js:94): left to right, non-overlapping. */
  function UnescapeKey(key: string): (email: string)
    ensures |email| <= |key|
  {
    if key == [] then []
    else if DotToken <= key then "." + UnescapeKey(key[|DotToken|..])
    else [key[0]] + UnescapeKey(key[1..])
  }

  /** A prefix without `[` survives escaping only if the original had it. */
  lemma {:induction false} EscapedPrefix(s: string, w: string)
    requires '[' !in w
    requires w <= EscapeEmail(s)
    ensures w <= s
  {
    if w != [] {
      assert s != [];
      var e := EscapeEmail(s);
      assert e[0] == (if s[0] == '.' then '[' else s[0]);
      assert w[0] in w;
      assert e == [s[0]] + EscapeEmail(s[1..]);
      assert w[1..] <= EscapeEmail(s[1..]);
      EscapedPrefix(s[1..], w[1..]);
    }
  }

  /** An escaped address that starts with `[dot]` not made from a `.` had `[dot]` in it. */
  lemma TokenInEscape(s: string)
    requires s != [] && s[0] != '.'
    ensures DotToken <= EscapeEmail(s) ==> Contains(s, DotToken)
  {
    var e := EscapeEmail(s);
    if DotToken <= e {
      assert e == [s[0]] + EscapeEmail(s[1..]);
      assert e[1..] == EscapeEmail(s[1..]);
      assert "dot]" == DotToken[1..] == e[1..|DotToken|];
      EscapedPrefix(s[1..], "dot]");
      assert s[..|DotToken|] == DotToken;
      assert OccursAt(s, DotToken, 0);
    }
  }

  /** Unescaping undoes escaping for every address that does not itself contain `[dot]`. */
  lemma {:induction false} UnescapeEscape(email: string)
    requires !Contains(email, DotToken)
    ensures UnescapeKey(EscapeEmail(email)) == email
  {
    if email != [] {
      var rest := email[1..];
      assert !Contains(rest, DotToken) by {
        forall i | OccursAt(rest, DotToken, i) ensures false {
          assert email[i + 1..i + 1 + |DotToken|] == rest[i..i + |DotToken|];
          assert OccursAt(email, DotToken, i + 1);
        }
      }
      var e := EscapeEmail(email);
      if email[0] == '.' {
        assert e == DotToken + EscapeEmail(rest);
        assert DotToken <= e;
        assert e[|DotToken|..] == EscapeEmail(rest);
      } else {
        assert e == [email[0]] + EscapeEmail(rest);
        TokenInEscape(email);
        assert e[1..] == EscapeEmail(rest);
      }
      UnescapeEscape(rest);
    }
  }

  /** Escaping undoes unescaping for every key without `.`. */
  lemma {:induction false} EscapeUnescape(key: string)
    requires '.' !in key
    ensures EscapeEmail(UnescapeKey(key)) == key
  {
    if key != [] {
      if DotToken <= key {
        var rest := key[|DotToken|..];
        assert '.' !in rest;
        EscapeUnescape(rest);
        var u := "." + UnescapeKey(rest);
        assert u[1..] == UnescapeKey(rest);
        assert key == DotToken + rest;
      } else {
        assert '.' !in key[1..];
        EscapeUnescape(key[1..]);
        var u := [key[0]] + UnescapeKey(key[1..]);
        assert u[1..] == UnescapeKey(key[1..]);
        assert key == [key[0]] + key[1..];
      }
    }
  }

  /** Escaping is one-to-one on addresses that do not contain `[dot]`. */
  lemma EscapeInjective(a: string, b: string)
    requires !Contains(a, DotToken) && !Contains(b, DotToken)
    requires EscapeEmail(a) == EscapeEmail(b)
    ensures a == b
  {
    UnescapeEscape(a);
    UnescapeEscape(b);
  }

  /** Without that restriction two addresses share a key: `x.y` and `x[dot]y`, for any `x` and `y`. */
  lemma EscapeCollision(x: string, y: string)
    ensures x + "." + y != x + DotToken + y
    ensures EscapeEmail(x + "." + y) == EscapeEmail(x + DotToken + y)
  {
    assert |x + "." + y| < |x + DotToken + y|;
    calc {
      EscapeEmail(x + "." + y);
      { EscapeAppend(x + ".", y); EscapeAppend(x, "."); }
      EscapeEmail(x) + EscapeEmail(".") + EscapeEmail(y);
      { assert "."[0] == '.' && "."[1..] == []; }
      EscapeEmail(x) + DotToken + EscapeEmail(y);
      { EscapeWithoutDot(DotToken); }
      EscapeEmail(x) + EscapeEmail(DotToken) + EscapeEmail(y);
      { EscapeAppend(x + DotToken, y); EscapeAppend(x, DotToken); }
      EscapeEmail(x + DotToken + y);
    }
  }

  /** Escaping works character by character. */
  lemma {:induction false} EscapeAppend(a: string, b: string)
    ensures EscapeEmail(a + b) == EscapeEmail(a) + EscapeEmail(b)
  {
    if a == [] {
      assert a + b == b;
    } else {
      assert (a + b)[0] == a[0];
      assert (a + b)[1..] == a[1..] + b;
      EscapeAppend(a[1..], b);
    }
  }

  /** A string without `.` is its own key. */
  lemma {:induction false} EscapeWithoutDot(s: string)
    requires '.' !in s
    ensures EscapeEmail(s) == s
  {
    if s != [] {
      assert s[0] in s;
      assert '.' !in s[1..] by {
        assert forall c :: c in s[1..] ==> c in s;
      }
      EscapeWithoutDot(s[1..]);
    }
  }

  // ---------------------------------------------------------------------------
  // Projects and the dashboard listing.
  // ---------------------------------------------------------------------------

  /**
   * A project record. A collaborator entry maps an escaped address to a stored
   * level (`'admin'`, `'edit'`, `'view'`, or any other string) or to `None`
   * for a stored `null`.
   */
  datatype Project = Project(
    projectKey: string,
    owner: string,
    projectName: string,
    trashed: bool,
    public: bool,
    collaborators: map<string, Option<string>>)

  /** The `$or` query of `/projects/list` (routes/users.js:38-45). */
  predicate ListedFor(p: Project, email: string) {
    var key := EscapeEmail(email);
    p.owner == email || (key in p.collaborators && p.collaborators[key].Some?)
  }

  /** The projects `/projects/list` returns for `email`, in store order. */
  function ListProjects(projects: seq<Project>, email: string): (listed: seq<Project>)
    ensures forall p :: p in listed <==> p in projects && ListedFor(p, email)
    ensures |listed| <= |projects|
  {
    if projects == [] then []
    else (if ListedFor(projects[0], email) then [projects[0]] else []) + ListProjects(projects[1..], email)
  }

  // ---------------------------------------------------------------------------
  // `/projects/update` (routes/users.js:58-136).
  // ---------------------------------------------------------------------------

  const ProjectNotFound: string := "Failed to find project!"
  const NotAuthorized: string := "You are not authorized to update this project!"
  const UserNotFound: string := "Failed to find user!"
  const InvalidAccessType: string := "Invalid Access Type"

  /** The request body: `type` and the fields each type reads. */
  datatype UpdateRequest = UpdateRequest(
    projectKey: string,
    kind: string,
    newName: string,
    trashed: bool,
    public: bool,
    collabAccess: string,
    collabKey: string)

  /**
   * What the handler sends: an error body `{status, message}`, a success body
   * `{status: 200, type, project}`, or nothing at all (the branches that fall
   * off the end of the handler).
   */
  datatype Reply = Failure(status: int, message: string) | Success(kind: string, project: Project) | NoReply

  /** The first project whose key is `key` (`Project.findOne`). */
  function FindByKey(projects: seq<Project>, key: string): (found: Option<nat>)
    ensures found.Some? ==> found.value < |projects| && projects[found.value].projectKey == key
    ensures found.Some? ==> forall j :: 0 <= j < found.value ==> projects[j].projectKey != key
    ensures found.None? ==> forall j :: 0 <= j < |projects| ==> projects[j].projectKey != key
  {
    if projects == [] then None
    else if projects[0].projectKey == key then Some(0)
    else match FindByKey(projects[1..], key)
      case None => None
      case Some(i) => Some(i + 1)
  }

  /** `project.collaborators[emailEscaped] || 'none'`: missing, null and empty entries read as `'none'`. */
  function AccessOf(p: Project, email: string): (level: string)
    ensures level != ""
    ensures level == "admin" <==>
      (var key := EscapeEmail(email); key in p.collaborators && p.collaborators[key] == Some("admin"))
    ensures level != "none" ==>
      (var key := EscapeEmail(email); key in p.collaborators && p.collaborators[key] == Some(level))
  {
    var key := EscapeEmail(email);
    if key in p.collaborators && p.collaborators[key].Some? && p.collaborators[key].value != ""
    then p.collaborators[key].value
    else "none"
  }

  /** The check of routes/users.js:67-72: the owner, or a collaborator whose entry is exactly `'admin'`. */
  predicate MayUpdate(p: Project, email: string)
    ensures MayUpdate(p, email) <==>
      email == p.owner || (var key := EscapeEmail(email); key in p.collaborators && p.collaborators[key] == Some("admin"))
  {
    email == p.owner || !(AccessOf(p, email) == "none" || AccessOf(p, email) != "admin")
  }

  predicate IsAbsent(c: map<string, Option<string>>, key: string) {
    key !in c || c[key].None?
  }

  /** The result of the collaborator sub-protocol on one collaborator map. */
  datatype CollabOutcome = Changed(collaborators: map<string, Option<string>>) | Refused(status: int, message: string) | Ignored

  /**
   * The `switch (content.collabAccess)` of routes/users.js:91-131. `registered`
   * holds the addresses of the registered users (`User.findOne`). `add` tests
   * `== undefined`, which also holds for a stored `null`.
   */
  function ChangeCollaborator(c: map<string, Option<string>>, access: string, key: string, registered: set<string>)
    : (o: CollabOutcome)
    ensures o.Changed? ==> forall k :: k != key ==> (k in o.collaborators <==> k in c)
    ensures o.Changed? ==> forall k :: k != key && k in c ==> o.collaborators[k] == c[k]
    ensures o.Changed? ==> (key in o.collaborators <==> access != "remove")
    ensures access == "add" ==>
      (o.Changed? <==> IsAbsent(c, key) && UnescapeKey(key) in registered) &&
      (o.Changed? ==> o.collaborators[key] == Some("view")) &&
      (o.Refused? <==> IsAbsent(c, key) && UnescapeKey(key) !in registered) &&
      (o.Refused? ==> o.status == 404 && o.message == UserNotFound) &&
      (o.Ignored? <==> !IsAbsent(c, key))
    ensures access in {"admin", "edit", "view"} ==> o.Changed? && o.collaborators[key] == Some(access)
    ensures access == "remove" ==> o.Changed?
    ensures o.Refused? && o.status == 500 <==> access == "default"
    ensures o.Ignored? <==> access !in {"add", "admin", "edit", "view", "remove", "default"} || (access == "add" && !IsAbsent(c, key))
  {
    if access == "add" then
      if IsAbsent(c, key) then
        if UnescapeKey(key) in registered then Changed(c[key := Some("view")]) else Refused(404, UserNotFound)
      else Ignored
    else if access == "admin" || access == "edit" || access == "view" then Changed(c[key := Some(access)])
    else if access == "remove" then Changed(c - {key})
    else if access == "default" then Refused(500, InvalidAccessType)
    else Ignored
  }

  /** `projects` without the element at `i` (`project.remove()`). */
  function RemoveAt(projects: seq<Project>, i: nat): (r: seq<Project>)
    requires i < |projects|
    ensures |r| == |projects| - 1
    ensures forall j :: 0 <= j < i ==> r[j] == projects[j]
    ensures forall j :: i <= j < |r| ==> r[j] == projects[j + 1]
    ensures multiset(r) + multiset{projects[i]} == multiset(projects)
  {
    assert projects == projects[..i] + [projects[i]] + projects[i + 1..];
    projects[..i] + projects[i + 1..]
  }

  /**
   * The whole decision of `/projects/update`: the new project collection and
   * the reply, for a request from the signed-in `email`.
   */
  function Handle(projects: seq<Project>, email: string, req: UpdateRequest, registered: set<string>)
    : (r: (seq<Project>, Reply))
    // A missing project: 404, nothing changes.
    ensures FindByKey(projects, req.projectKey).None? ==> r == (projects, Failure(404, ProjectNotFound))
    // 403 exactly when the project exists and the requester is neither owner nor admin collaborator.
    ensures (r.1.Failure? && r.1.status == 403) <==>
      (var f := FindByKey(projects, req.projectKey); f.Some? && !MayUpdate(projects[f.value], email))
    ensures r.1.Failure? && r.1.status == 403 ==> r.0 == projects && r.1.message == NotAuthorized
    // Refused and unanswered requests change nothing.
    ensures !r.1.Success? ==> r.0 == projects
    // Every success is an update of the requested project by an authorised requester.
    ensures r.1.Success? ==>
      (var f := FindByKey(projects, req.projectKey); f.Some? && MayUpdate(projects[f.value], email) && r.1.kind == req.kind)
    // A request of any other type on a found project gets no reply and changes nothing.
    ensures var f := FindByKey(projects, req.projectKey);
      (f.Some? && MayUpdate(projects[f.value], email) &&
       req.kind !in {"rename", "trash", "delete", "public", "collaborator"}) ==> r == (projects, NoReply)
  {
    match FindByKey(projects, req.projectKey)
    case None => (projects, Failure(404, ProjectNotFound))
    case Some(i) =>
      var p := projects[i];
      if !MayUpdate(p, email) then (projects, Failure(403, NotAuthorized))
      else if req.kind == "rename" then
        var p' := p.(projectName := req.newName);
        (projects[i := p'], Success(req.kind, p'))
      else if req.kind == "trash" then
        var p' := p.(trashed := req.trashed);
        (projects[i := p'], Success(req.kind, p'))
      else if req.kind == "delete" then
        (RemoveAt(projects, i), Success(req.kind, p))
      else if req.kind == "public" then
        var p' := p.(public := req.public);
        (projects[i := p'], Success(req.kind, p'))
      else if req.kind == "collaborator" then
        match ChangeCollaborator(p.collaborators, req.collabAccess, req.collabKey, registered)
        case Changed(c) =>
          var p' := p.(collaborators := c);
          (projects[i := p'], Success(req.kind, p'))
        case Refused(status, message) => (projects, Failure(status, message))
        case Ignored => (projects, NoReply)
      else (projects, NoReply)
  }

  /** True when `after` is `before` with only the project at `i` replaced by `p`. */
  predicate OnlyAt(before: seq<Project>, after: seq<Project>, i: nat, p: Project) {
    i < |before| && |after| == |before| && after[i] == p &&
    forall j :: 0 <= j < |before| && j != i ==> after[j] == before[j]
  }

  /** `rename`, `trash` and `public` change one field of the found project and reply 200. */
  lemma HandleFieldUpdates(projects: seq<Project>, email: string, req: UpdateRequest, registered: set<string>)
    requires req.kind in {"rename", "trash", "public"}
    requires FindByKey(projects, req.projectKey).Some?
    requires MayUpdate(projects[FindByKey(projects, req.projectKey).value], email)
    ensures var i := FindByKey(projects, req.projectKey).value;
      var p := projects[i];
      var r := Handle(projects, email, req, registered);
      r.1.Success? && r.1.kind == req.kind &&
      i < |r.0| && r.1 == Success(req.kind, r.0[i]) &&
      (req.kind == "rename" ==> OnlyAt(projects, r.0, i, p.(projectName := req.newName))) &&
      (req.kind == "trash" ==> OnlyAt(projects, r.0, i, p.(trashed := req.trashed))) &&
      (req.kind == "public" ==> OnlyAt(projects, r.0, i, p.(public := req.public)))
  {
  }

  /** `delete` removes exactly the found project from the collection. */
  lemma HandleDelete(projects: seq<Project>, email: string, req: UpdateRequest, registered: set<string>)
    requires req.kind == "delete"
    requires FindByKey(projects, req.projectKey).Some?
    requires MayUpdate(projects[FindByKey(projects, req.projectKey).value], email)
    ensures var i := FindByKey(projects, req.projectKey).value;
      var r := Handle(projects, email, req, registered);
      r.1 == Success("delete", projects[i]) &&
      multiset(r.0) + multiset{projects[i]} == multiset(projects) && |r.0| == |projects| - 1
  {
  }

  /**
   * A collaborator request by an authorised requester changes only the
   * collaborator map of the found project, as `ChangeCollaborator` decides.
   */
  lemma HandleCollaborator(projects: seq<Project>, email: string, req: UpdateRequest, registered: set<string>)
    requires req.kind == "collaborator"
    requires FindByKey(projects, req.projectKey).Some?
    requires MayUpdate(projects[FindByKey(projects, req.projectKey).value], email)
    ensures var i := FindByKey(projects, req.projectKey).value;
      var p := projects[i];
      var o := ChangeCollaborator(p.collaborators, req.collabAccess, req.collabKey, registered);
      var r := Handle(projects, email, req, registered);
      (o.Changed? ==>
        OnlyAt(projects, r.0, i, p.(collaborators := o.collaborators)) && r.1 == Success(req.kind, r.0[i])) &&
      (o.Refused? ==> r == (projects, Failure(o.status, o.message))) &&
      (o.Ignored? ==> r == (projects, NoReply))
  {
  }

  /**
   * Adding the same collaborator twice: the second request finds the entry
   * the first one stored, leaves the collection as it is and sends nothing.
   */
  lemma {:induction false} AddTwice(projects: seq<Project>, email: string, req: UpdateRequest, registered: set<string>)
    requires req.kind == "collaborator" && req.collabAccess == "add"
    requires Handle(projects, email, req, registered).1.Success?
    ensures var once := Handle(projects, email, req, registered).0;
      var i := FindByKey(projects, req.projectKey).value;
      once[i].collaborators[req.collabKey] == Some("view") &&
      Handle(once, email, req, registered) == (once, NoReply)
  {
    var i := FindByKey(projects, req.projectKey).value;
    var p := projects[i];
    var o := ChangeCollaborator(p.collaborators, "add", req.collabKey, registered);
    var once := Handle(projects, email, req, registered).0;
    assert once == projects[i := p.(collaborators := o.collaborators)];
    FindAfterReplace(projects, i, p.(collaborators := o.collaborators), req.projectKey);
    var q := once[i];
    // The requester keeps its right: the owner is unchanged, and an admin
    // entry under the requester's own key would have made `add` a no-op.
    assert MayUpdate(q, email) by {
      var key := EscapeEmail(email);
      if email != p.owner {
        assert key in p.collaborators && p.collaborators[key] == Some("admin");
        assert key != req.collabKey;
        assert q.collaborators[key] == Some("admin");
      }
    }
  }

  /** Replacing the found project by one with the same key keeps it the first match. */
  lemma {:induction false} FindAfterReplace(projects: seq<Project>, i: nat, p: Project, key: string)
    requires FindByKey(projects, key) == Some(i)
    requires p.projectKey == key
    ensures FindByKey(projects[i := p], key) == Some(i)
  {
    if i > 0 {
      var after := projects[i := p];
      assert after[0] == projects[0];
      assert FindByKey(projects[1..], key) == Some(i - 1);
      FindAfterReplace(projects[1..], i - 1, p, key);
      assert after[1..] == projects[1..][i - 1 := p];
    }
  }

  /**
   * The in-memory project collection and user collection; `Update` mutates
   * the found record in place, as the handler does before `project.save()`.
   */
  class ProjectStore {
    var projects: seq<Project>
    /** E-mail addresses of the registered users. */
    var users: set<string>

    constructor (projects: seq<Project>, users: set<string>)
      ensures this.projects == projects && this.users == users
    {
      this.projects := projects;
      this.users := users;
    }

    /** `/projects/update` for the signed-in `email` (routes/users.js:58-136). */
    method Update(email: string, content: UpdateRequest) returns (reply: Reply)
      modifies this`projects
      ensures (projects, reply) == Handle(old(projects), email, content, users)
    {
      var found := FindByKey(projects, content.projectKey);
      if found.None? {
        return Failure(404, ProjectNotFound);
      }
      var i := found.value;
      var project := projects[i];
      if email != project.owner {
        var collabAccess := AccessOf(project, email);
        if collabAccess == "none" || collabAccess != "admin" {
          return Failure(403, NotAuthorized);
        }
      }
      if content.kind == "rename" {
        project := project.(projectName := content.newName);
        projects := projects[i := project];
        return Success(content.kind, project);
      } else if content.kind == "trash" {
        project := project.(trashed := content.trashed);
        projects := projects[i := project];
        return Success(content.kind, project);
      } else if content.kind == "delete" {
        projects := RemoveAt(projects, i);
        return Success(content.kind, project);
      } else if content.kind == "public" {
        project := project.(public := content.public);
        projects := projects[i := project];
        return Success(content.kind, project);
      } else if content.kind == "collaborator" {
        var key := content.collabKey;
        var collaborators := project.collaborators;
        var access := content.collabAccess;
        if access == "add" {
          if IsAbsent(collaborators, key) {
            var emailKey := UnescapeKey(key);
            if emailKey !in users {
              return Failure(404, UserNotFound);
            }
            collaborators := collaborators[key := Some("view")];
            project := project.(collaborators := collaborators);
            projects := projects[i := project];
            return Success(content.kind, project);
          }
        } else if access == "admin" || access == "edit" || access == "view" {
          collaborators := collaborators[key := Some(access)];
          project := project.(collaborators := collaborators);
          projects := projects[i := project];
          return Success(content.kind, project);
        } else if access == "remove" {
          collaborators := collaborators - {key};
          project := project.(collaborators := collaborators);
          projects := projects[i := project];
          return Success(content.kind, project);
        } else if access == "default" {
          return Failure(500, InvalidAccessType);
        }
      }
      reply := NoReply;
    }
  }

  // ---------------------------------------------------------------------------
  // `/register` (routes/users.js:144).
  // ---------------------------------------------------------------------------

  datatype Role = Student | Faculty

  /** Only the exact string `"faculty"` selects the faculty role; anything else is a student. */
  function RoleFor(optrole: string): (role: Role)
    ensures role == Faculty <==> optrole == "faculty"
  {
    if optrole == "faculty" then Faculty else Student
  }
}
