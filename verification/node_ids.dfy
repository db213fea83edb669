/** Node ids (internal/domain/node.go): what they name, and how an instance id is built and taken apart. */
module NodeIds {

  const CONNECTION_ROOT := ""
  const NODE_ROOT := "docker"
  const NODE_CONTAINERS := "docker/containers"
  const NODE_IMAGES := "docker/images"
  const NODE_VOLUMES := "docker/volumes"
  const NODE_NETWORKS := "docker/networks"

  const KIND_CONTAINER := "container"
  const KIND_IMAGE := "image"
  const KIND_VOLUME := "volume"
  const KIND_NETWORK := "network"

  predicate KnownKind(kind: string) {
    kind == KIND_CONTAINER || kind == KIND_IMAGE || kind == KIND_VOLUME || kind == KIND_NETWORK
  }

  predicate IsGroup(id: string) {
    id == NODE_CONTAINERS || id == NODE_IMAGES || id == NODE_VOLUMES || id == NODE_NETWORKS
  }

  predicate IsAlphanumeric(c: char) {
    'a' <= c <= 'z' || 'A' <= c <= 'Z' || '0' <= c <= '9'
  }

  /** The pattern ^[a-zA-Z0-9][a-zA-Z0-9_.:-]{0,190}$. */
  predicate ValidDockerId(s: string) {
    && 1 <= |s| <= 191 && IsAlphanumeric(s[0])
    && forall c :: c in s ==> IsAlphanumeric(c) || c == '_' || c == '.' || c == ':' || c == '-'
  }

  function InstanceId(kind: string, dockerId: string): string {
    "docker/" + kind + "/" + dockerId
  }

  datatype Parsed = Instance(kind: string, dockerId: string) | InvalidNodeId

  datatype Cut = Found(before: string, after: string) | NotFound

  /** strings.Cut at the first slash. */
  function CutSlash(s: string): Cut {
    if s == "" then NotFound
    else if s[0] == '/' then Found("", s[1..])
    else
      match CutSlash(s[1..])
      case NotFound => NotFound
      case Found(before, after) => Found([s[0]] + before, after)
  }

  function ParseInstanceId(nodeId: string): Parsed {
    if !("docker/" <= nodeId) then InvalidNodeId
    else
      match CutSlash(nodeId[7..])
      case NotFound => InvalidNodeId
      case Found(kind, dockerId) =>
        if dockerId == "" || !KnownKind(kind) || !ValidDockerId(dockerId) then InvalidNodeId
        else Instance(kind, dockerId)
  }

  // --- building and parsing are inverses ---------------------------------------------

  /** A string cuts into two parts exactly when it is the one without a slash, a slash, and the other. */
  lemma {:induction false} CutSlashExact(s: string, before: string, after: string)
    ensures CutSlash(s) == Found(before, after) <==> s == before + "/" + after && '/' !in before
  {
    if s != "" && s[0] != '/' {
      if before != "" {
        CutSlashExact(s[1..], before[1..], after);
        assert before == [before[0]] + before[1..];
        if s == before + "/" + after {
          assert s[1..] == before[1..] + "/" + after;
        }
        if CutSlash(s) == Found(before, after) {
          assert s == [s[0]] + s[1..];
        }
      }
    } else if s != "" {
      assert s == "/" + s[1..];
    }
  }

  lemma KindsHaveNoSlash(kind: string)
    requires KnownKind(kind)
    ensures '/' !in kind
  {
  }

  /** An id parses to a kind and a Docker id exactly when InstanceID builds it from them and both are valid. */
  lemma ParseExact(nodeId: string, kind: string, dockerId: string)
    ensures ParseInstanceId(nodeId) == Instance(kind, dockerId) <==>
            nodeId == InstanceId(kind, dockerId) && KnownKind(kind) && ValidDockerId(dockerId)
  {
    if KnownKind(kind) {
      KindsHaveNoSlash(kind);
      if "docker/" <= nodeId {
        CutSlashExact(nodeId[7..], kind, dockerId);
        assert nodeId == "docker/" + nodeId[7..];
        assert nodeId == InstanceId(kind, dockerId) ==> nodeId[7..] == kind + "/" + dockerId;
      }
    }
  }

  /** Different instances have different ids. */
  lemma InstanceIdInjective(kind: string, dockerId: string, kind': string, dockerId': string)
    requires KnownKind(kind) && ValidDockerId(dockerId) && KnownKind(kind') && ValidDockerId(dockerId')
    requires InstanceId(kind, dockerId) == InstanceId(kind', dockerId')
    ensures kind == kind' && dockerId == dockerId'
  {
    ParseExact(InstanceId(kind, dockerId), kind, dockerId);
    ParseExact(InstanceId(kind, dockerId), kind', dockerId');
  }

  predicate IsHex(s: string) {
    1 <= |s| <= 64 && forall c :: c in s ==> '0' <= c <= '9' || 'a' <= c <= 'f'
  }

  lemma HexIsAccepted(hex: string)
    requires IsHex(hex)
    ensures ValidDockerId(hex) && ValidDockerId("sha256:" + hex)
  {
    var digest := "sha256:" + hex;
    forall i | 0 <= i < |hex| ensures MayStandAt(hex[i], i) && MayStandAt(hex[i], i + 7) {
      assert hex[i] in hex;
    }
    assert forall i :: 7 <= i < |digest| ==> digest[i] == hex[i - 7];
    DockerIdsAre(hex);
    DockerIdsAre(digest);
  }

  /** The ids the daemon gives out, of every kind, make instance ids: hex ones, and images' with their digest's name. */
  lemma DaemonIdsAreAccepted(kind: string, hex: string)
    requires kind == "container" || kind == "image" || kind == "volume" || kind == "network"
    requires IsHex(hex)
    ensures ParseInstanceId("docker/" + kind + "/" + hex) == Instance(kind, hex)
    ensures ParseInstanceId("docker/" + kind + "/" + ("sha256:" + hex)) == Instance(kind, "sha256:" + hex)
  {
    HexIsAccepted(hex);
    hide ValidDockerId, ParseInstanceId;
    ParseExact("docker/" + kind + "/" + hex, kind, hex);
    ParseExact("docker/" + kind + "/" + ("sha256:" + hex), kind, "sha256:" + hex);
  }

  predicate MayStandAt(c: char, i: nat) {
    'a' <= c <= 'z' || 'A' <= c <= 'Z' || '0' <= c <= '9' || (i > 0 && (c == '_' || c == '.' || c == ':' || c == '-'))
  }

  /** What a Docker id is, character by character. */
  lemma DockerIdsAre(s: string)
    ensures ValidDockerId(s) <==> 1 <= |s| <= 191 && forall i :: 0 <= i < |s| ==> MayStandAt(s[i], i)
  {
    assert s != "" ==> (MayStandAt(s[0], 0) <==> IsAlphanumeric(s[0]));
    if ValidDockerId(s) {
      forall i | 0 <= i < |s| ensures MayStandAt(s[i], i) {
        assert s[i] in s;
      }
    }
  }

  // --- classes of ids -------------------------------------------------------------------

  datatype NodeClass = Unknown | ConnectionRoot | DockerRoot | Group | InstanceClass

  function ClassOf(nodeId: string): NodeClass {
    if nodeId == CONNECTION_ROOT then ConnectionRoot
    else if nodeId == NODE_ROOT then DockerRoot
    else if IsGroup(nodeId) then Group
    else if ParseInstanceId(nodeId).Instance? then InstanceClass
    else Unknown
  }

  lemma NoSlashNoCut(s: string)
    requires '/' !in s
    ensures CutSlash(s) == NotFound
  {
  }

  /** No root or group id is an instance id, so the class says all there is to know before a parse. */
  lemma FixedIdsAreNoInstances(nodeId: string)
    ensures nodeId == CONNECTION_ROOT || nodeId == NODE_ROOT || IsGroup(nodeId) ==> ParseInstanceId(nodeId) == InvalidNodeId
    ensures ClassOf(nodeId) == InstanceClass <==> ParseInstanceId(nodeId).Instance?
  {
    if IsGroup(nodeId) {
      NoSlashNoCut(nodeId[7..]);
    }
  }

  /** The class of every id. */
  lemma ClassesAre(nodeId: string)
    ensures ClassOf("") == ConnectionRoot && ClassOf("docker") == DockerRoot
    ensures ClassOf("docker/containers") == ClassOf("docker/images") == Group
    ensures ClassOf("docker/volumes") == ClassOf("docker/networks") == Group
    ensures ClassOf(nodeId) == InstanceClass <==>
      exists kind, dockerId :: nodeId == InstanceId(kind, dockerId) && KnownKind(kind) && ValidDockerId(dockerId)
    ensures ClassOf(nodeId) == Unknown ==> nodeId != "" && nodeId != "docker" && !IsGroup(nodeId)
  {
    FixedIdsAreNoInstances(nodeId);
    var p := ParseInstanceId(nodeId);
    if p.Instance? {
      ParseExact(nodeId, p.kind, p.dockerId);
    }
    if kind, dockerId :| nodeId == InstanceId(kind, dockerId) && KnownKind(kind) && ValidDockerId(dockerId) {
      ParseExact(nodeId, kind, dockerId);
    }
  }

  function GroupForKind(kind: string): string {
    if kind == KIND_CONTAINER then NODE_CONTAINERS
    else if kind == KIND_IMAGE then NODE_IMAGES
    else if kind == KIND_VOLUME then NODE_VOLUMES
    else if kind == KIND_NETWORK then NODE_NETWORKS
    else NODE_ROOT
  }
}
