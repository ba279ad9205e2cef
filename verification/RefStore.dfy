/**
 The Git ref store: ref transactions as `git update-ref --stdin` runs them, and the
 repository object whose refs they change.
 */
module RefStore {
  import opened Wrappers

  type RefName = string
  type Oid = string
  type Refs = map<RefName, Oid>

  /** One line of a ref transaction. */
  datatype RefCommand =
    | Create(name: RefName, value: Oid)
    | Update(name: RefName, value: Oid, expected: Oid)
    | Delete(name: RefName, expected: Oid)

  /** What `git rev-parse --verify` says about one name. */
  function At(refs: Refs, name: RefName): Option<Oid> {
    if name in refs then Some(refs[name]) else None
  }

  /** The compare half of the compare-and-swap. */
  predicate Admits(refs: Refs, c: RefCommand) {
    match c
    case Create(n, _) => At(refs, n) == None
    case Update(n, _, expected) => At(refs, n) == Some(expected)
    case Delete(n, expected) => At(refs, n) == Some(expected)
  }

  /** The swap half. */
  function Step(refs: Refs, c: RefCommand): Refs {
    match c
    case Create(n, v) => refs[n := v]
    case Update(n, v, _) => refs[n := v]
    case Delete(n, _) => refs - {n}
  }

  /** Git refuses a transaction that names one ref twice. */
  predicate DistinctNames(commands: seq<RefCommand>) {
    forall i, j | 0 <= i < j < |commands| :: commands[i].name != commands[j].name
  }

  predicate Applicable(refs: Refs, commands: seq<RefCommand>) {
    && DistinctNames(commands)
    && forall i | 0 <= i < |commands| :: Admits(refs, commands[i])
  }

  function Applied(refs: Refs, commands: seq<RefCommand>): Refs {
    if commands == [] then refs
    else Step(Applied(refs, commands[..|commands| - 1]), commands[|commands| - 1])
  }

  /** The commands of a transaction that name one ref, in order. */
  function Named(commands: seq<RefCommand>, name: RefName): seq<RefCommand> {
    if commands == [] then []
    else
      var last := commands[|commands| - 1];
      Named(commands[..|commands| - 1], name) + (if last.name == name then [last] else [])
  }

  /** At most one command names the ref, and the store admits it. */
  predicate AdmitsAll(refs: Refs, commands: seq<RefCommand>) {
    |commands| == 0 || (|commands| == 1 && Admits(refs, commands[0]))
  }

  /** The value of a ref after the commands that name it. */
  function Outcome(before: Option<Oid>, commands: seq<RefCommand>): Option<Oid> {
    if |commands| == 0 then before
    else
      match commands[|commands| - 1]
      case Create(_, v) => Some(v)
      case Update(_, v, _) => Some(v)
      case Delete(_, _) => None
  }

  lemma NamedAppend(commands: seq<RefCommand>, c: RefCommand, name: RefName)
    ensures Named(commands + [c], name) == Named(commands, name) + (if c.name == name then [c] else [])
  {
    assert (commands + [c])[..|commands|] == commands;
  }

  lemma {:induction false} NamedElements(commands: seq<RefCommand>, name: RefName)
    ensures forall k | 0 <= k < |Named(commands, name)| ::
              Named(commands, name)[k].name == name && Named(commands, name)[k] in commands
    ensures forall i | 0 <= i < |commands| && commands[i].name == name :: commands[i] in Named(commands, name)
  {
    if commands != [] {
      var front := commands[..|commands| - 1];
      NamedElements(front, name);
      assert forall c | c in front :: c in commands;
      forall i | 0 <= i < |commands| && commands[i].name == name
        ensures commands[i] in Named(commands, name)
      {
        if i < |front| {
          assert front[i] == commands[i];
        }
      }
    }
  }

  /** A name used twice shows up twice among the commands that name it. */
  lemma {:induction false} NamedTwice(commands: seq<RefCommand>, i: nat, j: nat)
    requires i < j < |commands| && commands[i].name == commands[j].name
    ensures |Named(commands, commands[i].name)| >= 2
  {
    var front := commands[..|commands| - 1];
    if j < |front| {
      NamedTwice(front, i, j);
    } else {
      NamedElements(front, commands[i].name);
      assert front[i] == commands[i];
    }
  }

  lemma {:induction false} NamedNever(commands: seq<RefCommand>, name: RefName)
    requires forall i | 0 <= i < |commands| :: commands[i].name != name
    ensures Named(commands, name) == []
  {
    if commands != [] {
      NamedNever(commands[..|commands| - 1], name);
    }
  }

  lemma {:induction false} NamedOnce(commands: seq<RefCommand>, name: RefName)
    requires DistinctNames(commands)
    ensures |Named(commands, name)| <= 1
  {
    if commands != [] {
      var front := commands[..|commands| - 1];
      if commands[|commands| - 1].name == name {
        NamedNever(front, name);
      } else {
        NamedOnce(front, name);
      }
    }
  }

  /** Every name, taken alone, is admitted. */
  ghost predicate EachNameAdmitted(refs: Refs, commands: seq<RefCommand>) {
    forall n :: AdmitsAll(refs, Named(commands, n))
  }

  /** A transaction is applicable exactly when every name, taken alone, is admitted. */
  lemma ApplicableByName(refs: Refs, commands: seq<RefCommand>)
    ensures Applicable(refs, commands) <==> EachNameAdmitted(refs, commands)
  {
    if Applicable(refs, commands) {
      forall n
        ensures AdmitsAll(refs, Named(commands, n))
      {
        NamedOnce(commands, n);
        NamedElements(commands, n);
      }
    } else if EachNameAdmitted(refs, commands) {
      EachNameAlone(refs, commands);
    }
  }

  lemma EachNameAlone(refs: Refs, commands: seq<RefCommand>)
    requires EachNameAdmitted(refs, commands)
    ensures Applicable(refs, commands)
  {
    forall i, j | 0 <= i < j < |commands|
      ensures commands[i].name != commands[j].name
    {
      if commands[i].name == commands[j].name {
        NamedTwice(commands, i, j);
        assert false;
      }
    }
    forall i | 0 <= i < |commands|
      ensures Admits(refs, commands[i])
    {
      NamedElements(commands, commands[i].name);
      assert AdmitsAll(refs, Named(commands, commands[i].name));
    }
  }

  /** After a transaction each name has the value its own commands give it. */
  lemma {:induction false} AppliedByName(refs: Refs, commands: seq<RefCommand>, name: RefName)
    ensures At(Applied(refs, commands), name) == Outcome(At(refs, name), Named(commands, name))
  {
    if commands != [] {
      AppliedByName(refs, commands[..|commands| - 1], name);
    }
  }

  /** Two stores that answer alike on every name are the same store. */
  lemma SameEverywhere(a: Refs, b: Refs)
    requires forall n :: At(a, n) == At(b, n)
    ensures a == b
  {
    assert forall n :: n in a <==> At(a, n).Some?;
    assert forall n :: n in b <==> At(b, n).Some?;
    forall n | n in a
      ensures a[n] == b[n]
    {
      assert At(a, n) == At(b, n);
    }
  }

  /** A repository whose refs this process and foreign processes change. */
  class Repository {
    var refs: Refs

    constructor (initial: Refs)
      ensures refs == initial
    {
      refs := initial;
    }

    /** Runs one ref transaction: all of it, or none of it and an error. */
    method Transact(commands: seq<RefCommand>, fault: bool) returns (ok: bool)
      modifies this
      ensures ok == (!fault && Applicable(old(refs), commands))
      ensures refs == if ok then Applied(old(refs), commands) else old(refs)
    {
      ok := !fault && Applicable(refs, commands);
      if ok {
        refs := Applied(refs, commands);
      }
    }

    /** `git update-ref -d name expected` */
    method DeleteRef(name: RefName, expected: Oid, fault: bool) returns (ok: bool)
      modifies this
      ensures ok == (!fault && At(old(refs), name) == Some(expected))
      ensures refs == if ok then old(refs) - {name} else old(refs)
    {
      var command := [Delete(name, expected)];
      assert command[..0] == [] && Applied(refs, command) == refs - {name};
      ok := Transact(command, fault);
    }

    /** `git update-ref name value expected` */
    method MoveRef(name: RefName, value: Oid, expected: Oid) returns (ok: bool)
      modifies this
      ensures ok == (At(old(refs), name) == Some(expected))
      ensures refs == if ok then old(refs)[name := value] else old(refs)
    {
      var command := [Update(name, value, expected)];
      assert command[..0] == [] && Applied(refs, command) == refs[name := value];
      ok := Transact(command, false);
    }

    /** `git fetch +source:name`: sets one ref, whatever it held. */
    method Fetch(name: RefName, value: Oid)
      modifies this
      ensures refs == old(refs)[name := value]
    {
      refs := refs[name := value];
    }

    method Read(name: RefName) returns (value: Option<Oid>)
      ensures value == At(refs, name)
    {
      value := At(refs, name);
    }

    /**
     Foreign processes run between two steps of this one. Callers learn only that
     the names in `keep` have not changed; every other ref may be anything.
     */
    method Foreign(ghost keep: RefName -> bool)
      modifies this
      ensures forall n | keep(n) :: At(refs, n) == At(old(refs), n)
    {
    }
  }
}
