/** The parameters a node takes at runtime, by context. */
module DynamicParams {
  import opened SetConfigCommand
  import opened ConfigTree
  import opened ConfigDiff
  import opened DiffSoundness

  const SERVICE_PARAMS := {
    "proto-fd-max", "transaction-queues", "transaction-threads-per-queue", "batch-index-threads",
    "batch-max-buffers-per-queue", "batch-max-unused-buffers", "info-threads", "migrate-fill-delay",
    "migrate-max-num-incoming", "migrate-threads", "proto-fd-idle-ms", "query-threads-limit",
    "scan-threads-limit", "ticker-interval"
  }

  const NETWORK_PARAMS := {
    "heartbeat.interval", "heartbeat.timeout", "fabric.channel-bulk-recv-threads",
    "fabric.channel-ctrl-recv-threads", "fabric.channel-meta-recv-threads", "fabric.channel-rw-recv-threads",
    "fabric.recv-rearm-threshold", "fabric.send-threads"
  }

  const NAMESPACE_PARAMS := {
    "default-ttl", "high-water-disk-pct", "high-water-memory-pct", "stop-writes-pct",
    "stop-writes-sys-memory-pct", "migrate-order", "migrate-retransmit-ms", "migrate-sleep",
    "nsup-hist-period", "nsup-period", "nsup-threads", "prefer-uniform-balance", "rack-id",
    "read-page-cache", "transaction-pending-limit", "write-commit-level-override"
  }

  const LOGGING_PARAMS := {
    "any", "misc", "alloc", "arenax", "hardware", "msg", "namespace", "network", "os", "proto", "record",
    "socket", "xdr"
  }

  const SECURITY_PARAMS := {
    "log.report-authentication", "log.report-sys-admin", "log.report-user-admin", "log.report-violation"
  }

  function ParamsOf(context: string): set<string> {
    if context == "service" then SERVICE_PARAMS
    else if context == "network" then NETWORK_PARAMS
    else if context == "namespace" then NAMESPACE_PARAMS
    else if context == "logging" then LOGGING_PARAMS
    else if context == "security" then SECURITY_PARAMS
    else {}
  }

  /** `context.param`, looked up under its context. */
  predicate IsDynamic(path: string) {
    var i := IndexOf(path, '.');
    i < |path| && path[i+1..] in ParamsOf(path[..i])
  }

  /** The diff's promise, for the registry in use. */
  lemma RegisteredDiffSound(was: Section, now: Section, cs: seq<Change>)
    requires WellFormed(was) && WellFormed(now)
    requires forall f :: f in SectionFindings(IsDynamic, "", was, now) ==> f.dynamic
    requires forall c :: c in cs <==> Finding(c, true) in SectionFindings(IsDynamic, "", was, now)
    ensures Agree(ApplyAll(Loaded(was), cs), Loaded(now)) <==> NAMESPACES in now || Spaces(was) == map[]
  {
    forall path | IsDynamic(path) ensures '.' in path { assert path[IndexOf(path, '.')] == '.'; }
    DiffSound(IsDynamic, was, now, cs);
  }

  /** Registered are the parameters of a context, under that context. */
  lemma IsDynamicExactly(path: string)
    ensures IsDynamic(path) <==>
            exists context, param :: path == context + "." + param && '.' !in context && param in ParamsOf(context)
  {
    var i := IndexOf(path, '.');
    if i < |path| { assert path == path[..i] + "." + path[i+1..]; }
    if context, param :| path == context + "." + param && '.' !in context && param in ParamsOf(context) {
      IndexOfSplit(context, '.', param);
    }
  }
}
