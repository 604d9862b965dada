/** The rows of the config tables. */
module ConfigModel {
  import opened Options
  import opened Tree

  /** A semantic version without pre-release part, as the config engine writes them. */
  datatype Version = Version(major: nat, minor: nat, patch: nat)

  const INITIAL := Version(1, 0, 0)

  datatype Status = Draft | Active | Archived

  /** A config group; an empty `content` stands for a null `yamlContent`. */
  datatype Group = Group(id: nat, name: string, isGlobal: bool, sensitiveKeys: seq<string>, content: Fields)

  /** A revision with its groups; deleting the revision deletes them. */
  datatype Revision = Revision(number: nat, status: Status, semVer: Option<Version>, groups: seq<Group>)

  predicate Published(r: Revision) {
    r.status != Draft
  }

  function GroupNames(groups: seq<Group>): set<string> {
    set i | 0 <= i < |groups| :: groups[i].name
  }

  function GroupIds(groups: seq<Group>): set<nat> {
    set i | 0 <= i < |groups| :: groups[i].id
  }

  ghost predicate UniqueNames(groups: seq<Group>) {
    forall i, j | 0 <= i < j < |groups| :: groups[i].name != groups[j].name
  }

  /** The first group of that name, or -1. */
  function FindGroup(groups: seq<Group>, name: string): (i: int)
    ensures -1 <= i < |groups|
    ensures i >= 0 ==> groups[i].name == name
    ensures i < 0 <==> name !in GroupNames(groups)
  {
    if groups == [] then -1
    else
      var n := |groups| - 1;
      var i := FindGroup(groups[..n], name);
      assert groups == groups[..n] + [groups[n]];
      assert GroupNames(groups) == GroupNames(groups[..n]) + {groups[n].name};
      if i >= 0 then i else if groups[n].name == name then n else -1
  }
}
