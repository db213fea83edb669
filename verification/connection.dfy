/**
 One connection's mutable state (internal/usecase/connection.go and publish.go): the control client,
 what the host observes, and what has been published and so resolves.
 */
module Connections {
  import opened Bytes
  import opened DialSteps
  import opened NodeIds

  /** A row of a branch snapshot: all that remembering looks at. */
  datatype Node = Node(id: string, kind: string)

  /** The instance ids among some rows. */
  function InstanceIds(children: seq<Node>): set<string> {
    set c | c in children && c.kind == "instance" && ParseInstanceId(c.id).Instance? :: c.id
  }

  /** The rows that become resolvable are those that name an instance the plugin could have built. */
  lemma InstanceRowsAre(children: seq<Node>, id: string)
    ensures id in InstanceIds(children) <==>
      && (exists c :: c in children && c.id == id && c.kind == "instance")
      && exists kind, dockerId :: id == InstanceId(kind, dockerId) && KnownKind(kind) && ValidDockerId(dockerId)
  {
    if ParseInstanceId(id).Instance? {
      ParseExact(id, ParseInstanceId(id).kind, ParseInstanceId(id).dockerId);
    }
    if kind, dockerId :| id == InstanceId(kind, dockerId) && KnownKind(kind) && ValidDockerId(dockerId) {
      ParseExact(id, kind, dockerId);
    }
  }

  class Connection {
    var control: Option<ClientId>
    var closed: bool
    var observed: set<string>
    var resolved: map<string, string>
    ghost var published: set<string>   // the instance ids of all publishes of this session

    constructor ()
      ensures Faithful() && observed == {} && published == {} && Race() == Shared(None, false)
    {
      control, closed := None, false;
      observed, resolved, published := {}, map[], {};
    }

    /** The fields the dial race is about, as the transition system has them. */
    function Race(): Shared
      reads this
    {
      Shared(control, closed)
    }

    /** The first lock section of Control. */
    method FetchControl() returns (r: Option<Outcome>)
      ensures r == FirstSection(Race())
    {
      if closed {
        return Some(Failed(NoDocker));
      }
      if control.Some? {
        return Some(Served(control.value));
      }
      return None;
    }

    /** The second lock section of Control; `lost` means the caller's own client is to be closed. */
    method SettleControl(mine: ClientId) returns (outcome: Outcome, lost: bool)
      modifies this`control
      ensures (Race(), outcome) == SecondSection(old(Race()), mine)
      ensures lost <==> Race() == old(Race())
    {
      if closed {
        return Failed(NoDocker), true;
      }
      if control.Some? {
        return Served(control.value), true;
      }
      control := Some(mine);
      return Served(mine), false;
    }

    /** The lock section of markGone, and of Close. */
    method MarkGone() returns (client: Option<ClientId>)
      modifies this`control, this`closed
      ensures (Race(), client) == GoneSection(old(Race()))
    {
      closed := true;
      client := control;
      control := None;
    }

    /** What is remembered is exactly what was published, each id with the Docker id inside it. */
    ghost predicate Faithful()
      reads this
    {
      && resolved.Keys == published
      && forall n :: n in resolved ==> ParseInstanceId(n).Instance? && ParseInstanceId(n).dockerId == resolved[n]
    }

    /** SetObserved: what arrives is the whole truth, so it replaces. */
    method SetObserved(nodeIds: seq<string>)
      modifies this`observed
      ensures forall id :: id in observed <==> id in nodeIds
    {
      observed := set id | id in nodeIds;
    }

    method Remember(nodeId: string, dockerId: string)
      modifies this`resolved
      ensures resolved == old(resolved)[nodeId := dockerId]
    {
      resolved := resolved[nodeId := dockerId];
    }

    /** Resolve: the id must parse, must have been remembered, and must mean now what it meant then. */
    method Resolve(nodeId: string) returns (r: Parsed)
      ensures r.Instance? ==> nodeId in resolved && r == ParseInstanceId(nodeId) && r.dockerId == resolved[nodeId]
      ensures r == InvalidNodeId ==>
        ParseInstanceId(nodeId) == InvalidNodeId || nodeId !in resolved || resolved[nodeId] != ParseInstanceId(nodeId).dockerId
      // where everything remembered was published, that comes to this
      ensures Faithful() ==> (r.Instance? <==> nodeId in published)
      ensures r.Instance? ==> InstanceId(r.kind, r.dockerId) == nodeId && KnownKind(r.kind) && ValidDockerId(r.dockerId)
    {
      var p := ParseInstanceId(nodeId);
      if p == InvalidNodeId {
        return InvalidNodeId;
      }
      ParseExact(nodeId, p.kind, p.dockerId);
      if nodeId !in resolved {
        return InvalidNodeId;
      }
      var remembered := resolved[nodeId];
      if remembered != p.dockerId || !ValidDockerId(remembered) {
        return InvalidNodeId;
      }
      return p;
    }

    /** The remembering loop of publish: every instance row becomes resolvable, nothing is forgotten. */
    method Publish(children: seq<Node>)
      requires Faithful()
      modifies this`resolved, this`published
      ensures Faithful() && published == old(published) + InstanceIds(children)
    {
      for i := 0 to |children|
        invariant Faithful() && published == old(published) + InstanceIds(children[..i])
      {
        var child := children[i];
        assert InstanceIds(children[..i + 1]) == InstanceIds(children[..i]) + InstanceIds([child]) by {
          assert children[..i + 1] == children[..i] + [child];
        }
        if child.kind == "instance" {
          var p := ParseInstanceId(child.id);
          if p.Instance? {
            Remember(child.id, p.dockerId);
            published := published + {child.id};
            assert child in [child];
          }
        }
      }
      assert children[..|children|] == children;
    }
  }
}
