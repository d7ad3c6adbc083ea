/** Registering a server in the dashboard: a node, a code for it, and the command that enrolls its agent. */
module Registration {
  import opened Common
  import opened Database
  import opened Services
  import Shell

  datatype Page = NotCreated | ServiceUnavailable | EnrollmentPage(command: string)

  /** Taking back a node that was just created leaves the database as it was before. */
  lemma RemovingUndoesCreating(db: Db, id: NodeId, name: string, at: Instant)
    requires WellFormed(db) && CreateNode(db, id, name, at).answer.Ok?
    ensures RemoveNode(CreateNode(db, id, name, at).db, id) == Tx(db, Ok(()))
  {
    var created := CreateNode(db, id, name, at).db;
    CreateNodeEffect(db, id, name, at);
    AddedThenRemoved(db.nodes, id, created.nodes[id]);
    UnknownNodeHasNoRows(db, id);
    assert id in created.nodes;
  }

  lemma AddedThenRemoved(nodes: map<NodeId, NodeRow>, id: NodeId, row: NodeRow)
    requires id !in nodes
    ensures nodes[id := row] - {id} == nodes
  {
  }

  lemma UnknownNodeHasNoRows(db: Db, id: NodeId)
    requires WellFormed(db) && id !in db.nodes
    ensures CodesWithout(db.codes, id) == db.codes && ResultsWithout(db.results, id) == db.results
    ensures CertsWithout(db.certs, id) == db.certs && SamplesWithout(db.samples, id) == db.samples
  {
  }

  /** A shell reads these four values, if none holds a NUL, and the agent's program in the command. */
  predicate ReadsBack(command: string, node: string, endpoint: string, enrollEndpoint: string, code: string) {
    Shell.NulFree(node) && Shell.NulFree(endpoint) && Shell.NulFree(enrollEndpoint) && Shell.NulFree(code) ==>
      Shell.ParseCommand(command)
        == Some(Shell.Command([Shell.Assignment("PROBE_NODE_ID", node), Shell.Assignment("PROBE_ENDPOINT", endpoint),
                               Shell.Assignment("PROBE_ENROLL_ENDPOINT", enrollEndpoint),
                               Shell.Assignment("PROBE_ENROLL_CODE", code)], ["/usr/local/bin/probe-agent"]))
  }

  lemma CommandReadsBack(node: string, endpoint: string, enrollEndpoint: string, code: string)
    ensures ReadsBack(Shell.EnrollmentCommand(node, endpoint, enrollEndpoint, code), node, endpoint, enrollEndpoint, code)
  {
    Shell.EnrollmentCommandIsRead(node, endpoint, enrollEndpoint, code);
  }

  class MonitorHandler {
    const enrollment: EnrollmentService
    const reportEndpoint: string
    const enrollmentEndpoint: string

    constructor (enrollment: EnrollmentService, reportEndpoint: string, enrollmentEndpoint: string)
      ensures this.enrollment == enrollment
      ensures this.reportEndpoint == reportEndpoint && this.enrollmentEndpoint == enrollmentEndpoint
    {
      this.enrollment := enrollment;
      this.reportEndpoint, this.enrollmentEndpoint := reportEndpoint, enrollmentEndpoint;
    }

    /**
     All or nothing: unless a page with the command comes back, the database is as it was. With the command,
     the node is new, the code in the command enrolls that node for ten minutes, and a shell reads the node,
     the endpoints and the code back out of the command.
     */
    method RegisterNode(name: string, id: NodeId, code: Code, now: Instant, codeNow: Instant) returns (page: Page)
      requires enrollment.store.Valid()
      modifies enrollment.store
      ensures enrollment.store.Valid()
      ensures !page.EnrollmentPage? ==> enrollment.store.View() == old(enrollment.store.View())
      ensures page.EnrollmentPage? ==>
                && id !in old(enrollment.store.View()).nodes && id in enrollment.store.View().nodes
                && (forall at ::
                      NodeForEnrollmentCode(enrollment.store.View(), code, at)
                        == if ToMillis(at) < ToMillis(codeNow + 600_000_000_000) then Ok(id) else Err(CodeExpired))
                && ReadsBack(page.command, id, reportEndpoint, enrollmentEndpoint, code)
    {
      ghost var before := enrollment.store.View();
      var node := enrollment.store.CreateNode(id, name, now);
      if node.Err? {
        return NotCreated;
      }
      var created := enrollment.CreateEnrollmentCode(node.value, code, codeNow);
      if created.Err? {
        RemovingUndoesCreating(before, id, name, now);
        var removed := enrollment.store.RemoveNode(node.value);
        return ServiceUnavailable;
      }
      CommandReadsBack(id, reportEndpoint, enrollmentEndpoint, code);
      return EnrollmentPage(Shell.EnrollmentCommand(node.value, reportEndpoint, enrollmentEndpoint, created.value));
    }
  }
}
