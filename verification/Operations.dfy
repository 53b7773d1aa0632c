/** The local operations of a repository, as changes of its journal. */
module Operations {
  import opened Store
  import opened Identity

  datatype Op =
    | Upsert(kind: string, identity: Props, properties: Props, newId: Id, now: Value)
    | Link(kind: string, from: Id, to: Id, props: Props, newId: Id)
    | RemoveNodes(ids: set<Id>)
    | RemoveEdges(ids: set<Id>)

  /** `models.NewNode`: defaults only fill what identity and properties leave open. */
  function NewProps(op: Op): Props
    requires op.Upsert?
  {
    var given := op.identity + op.properties;
    var withId := if "id" in given then given else given["id" := Text(op.newId)];
    var stamped := withId["created_at" := op.now]["updated_at" := op.now];
    if "project_id" in stamped then stamped else stamped["project_id" := Nil]
  }

  /** The id of a node created by the upsert; an "id" property that is no string panics. */
  function NewId(op: Op): Id
    requires op.Upsert?
  {
    var given := op.identity + op.properties;
    if "id" in given then (if given["id"].Text? then given["id"].s else "") else op.newId
  }

  function UpsertExisting(st: State, j: Journal, op: Op, c: Id): Journal
    requires op.Upsert? && c in st.nodes
  {
    var props := (st.nodes[c].props + op.properties)["updated_at" := op.now];
    var identity := if c in j.dirty then j.dirty[c].identity else op.identity;
    j.(dirty := j.dirty[c := Snap(op.kind, props, identity)])
  }

  function UpsertNew(j: Journal, op: Op): Journal
    requires op.Upsert?
  {
    j.(dirty := j.dirty[NewId(op) := Snap(op.kind, NewProps(op), op.identity)])
  }

  /** The properties of a node an upsert creates: given ones win over the identity, both times are
      stamped, and id and project are filled where neither gives them. */
  ghost predicate CreatedWith(identity: Props, given: Props, newId: Id, now: Value, after: Props) {
    && (forall k :: k in after
                    <==> k in identity || k in given || k in {"id", "created_at", "updated_at", "project_id"})
    && after["created_at"] == now && after["updated_at"] == now
    && (forall k :: k in given && k !in {"created_at", "updated_at"} ==> after[k] == given[k])
    && (forall k :: k in identity && k !in given && k !in {"created_at", "updated_at"} ==> after[k] == identity[k])
    && ("id" !in identity && "id" !in given ==> after["id"] == Text(newId))
    && ("project_id" !in identity && "project_id" !in given ==> after["project_id"] == Nil)
  }

  lemma NewPropsAre(op: Op)
    requires op.Upsert?
    ensures CreatedWith(op.identity, op.properties, op.newId, op.now, NewProps(op))
    ensures NewProps(op)["id"].Text? ==> NewId(op) == NewProps(op)["id"].s
  {
  }

  lemma UpdatedProps(before: Props, given: Props, now: Value)
    ensures UpdatedWith(before, given, now, (before + given)["updated_at" := now])
  {
  }

  /** `Link` looks for an equal edge; an empty endpoint matches any. */
  predicate LinkMatches(e: Edge, op: Op)
    requires op.Link?
  {
    e.kind == op.kind && (op.from == "" || e.from == op.from) && (op.to == "" || e.to == op.to) && e.props == op.props
  }

  function Linked(j: Journal, op: Op): Journal
    requires op.Link?
  {
    j.(newEdges := j.newEdges[op.newId := Edge(op.newId, op.kind, op.from, op.to, op.props)])
  }

  function Incident(ids: set<Id>, e: Edge): bool {
    e.from in ids || e.to in ids
  }

  function DropNodes(j: Journal, ids: set<Id>): Journal {
    Journal(j.dirty - ids,
            map e | e in j.newEdges && !Incident(ids, j.newEdges[e]) :: j.newEdges[e],
            j.deletedNodes + ids, j.deletedEdges)
  }

  function DropEdges(j: Journal, ids: set<Id>): Journal {
    j.(newEdges := j.newEdges - ids, deletedEdges := j.deletedEdges + ids)
  }

  /** The upsert writes node id: one that carries the identity, or a new one if none does. */
  ghost predicate UpsertsAt(st: State, j: Journal, op: Op, r: Journal, id: Id)
    requires op.Upsert?
  {
    if exists c :: c in st.nodes && Carries(st.nodes[c], op.kind, op.identity)
    then id in st.nodes && Carries(st.nodes[id], op.kind, op.identity) && r == UpsertExisting(st, j, op, id)
    else id == NewId(op) && r == UpsertNew(j, op)
  }

  /** The operation, reading st, may turn journal j into r. */
  ghost predicate Applies(st: State, j: Journal, op: Op, r: Journal) {
    match op
    case Upsert(_, _, _, _, _) => exists id :: UpsertsAt(st, j, op, r, id)
    case Link(_, _, _, _, _) =>
      if exists e :: e in st.edges && LinkMatches(st.edges[e], op) then r == j
      else r == Linked(j, op)
    case RemoveNodes(ids) => r == DropNodes(j, ids)
    case RemoveEdges(ids) => r == DropEdges(j, ids)
  }

  /** The edge ids an operation may hand out. */
  function Uses(op: Op): set<Id> {
    if op.Link? then {op.newId} else {}
  }
}
