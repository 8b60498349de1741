/** Publishing evidence documents without replacement: the runtime receipt and its index, and the
    provenance receipt and its acceptance. Any number of verifiers run, race and crash; the file
    system is a map that a successful link extends. */
module Publication {
  import opened Workload

  datatype Path = RunIndexPath | ReceiptPath | IndexPath | ProvenancePath | AcceptancePath

  type Files = map<Path, string>

  /** Everything a receipt records beside its binding and its time is one opaque outcome. */
  datatype Receipt = Receipt(run: nat, runIndexDigest: nat, verifiedAt: int, outcome: nat)

  datatype Index = Index(run: nat, runIndexDigest: nat, receiptDigest: nat)

  datatype Provenance = Provenance(run: nat, indexSeal: nat, receiptSeal: nat, verifiedAt: int, facts: nat)

  datatype Acceptance = Acceptance(run: nat, provenanceSeal: nat, acceptedAt: int, facts: nat)

  datatype Document =
    | ReceiptDoc(receipt: Receipt)
    | IndexDoc(index: Index)
    | ProvenanceDoc(provenance: Provenance)
    | AcceptanceDoc(acceptance: Acceptance)

  /** Canonical encoding, the digest of file contents and the self-hash of a document, with the run
      that all verifiers check. */
  datatype Context = Context(
    encode: Document -> string, digest: string -> nat, seal: Document -> nat, run: nat, runIndexSource: string)
  {
    /** Encoding, digests and self-hashes tell documents apart. */
    ghost predicate Sound() {
      && (forall a, b :: encode(a) == encode(b) ==> a == b)
      && (forall a, b :: digest(a) == digest(b) ==> a == b)
      && (forall a, b :: seal(a) == seal(b) ==> a == b)
    }

    ghost predicate Holds(files: Files, path: Path, doc: Document) {
      path in files && files[path] == encode(doc)
    }

    function RunIndexDigest(): nat { digest(runIndexSource) }
  }

  /** A document to be linked, and what remembers the pair it belongs to. */
  datatype Job =
    | PublishReceipt(receipt: Receipt)
    | PublishIndex(receipt: Receipt, index: Index)
    | PublishProvenance(provenance: Provenance, acceptance: Acceptance)
    | PublishAcceptance(provenance: Provenance, acceptance: Acceptance)

  function Target(job: Job): Path {
    match job
    case PublishReceipt(_) => ReceiptPath
    case PublishIndex(_, _) => IndexPath
    case PublishProvenance(_, _) => ProvenancePath
    case PublishAcceptance(_, _) => AcceptancePath
  }

  function Content(job: Job): Document {
    match job
    case PublishReceipt(r) => ReceiptDoc(r)
    case PublishIndex(_, i) => IndexDoc(i)
    case PublishProvenance(p, _) => ProvenanceDoc(p)
    case PublishAcceptance(_, a) => AcceptanceDoc(a)
  }

  /** Where one verifier is between two file system operations. */
  datatype Proc =
    | RuntimeStart
    | SawIndex(indexExists: bool)
    | LoadingReceipt
    | Evaluating(existing: Option<Receipt>)
    | Referring(receipt: Receipt)
    | CheckingIndex(receipt: Receipt, index: Index)
    | RuntimeDone(receipt: Receipt, index: Index)
    | ProvenanceStart
    | Inspecting(index: Index, receipt: Receipt)
    | Timed(provenance: Provenance, seen: Option<string>)
    | CheckingTarget(job: Job)
    | Writing(job: Job, written: string)
    | ProvenanceDone(provenance: Provenance, acceptance: Acceptance)
    | Stopped

  /** What the outside decides in a step: a clock, the evaluation, what a read decodes to, how much a write takes. */
  datatype Action =
    | Go
    | Load(doc: Document)
    | LoadPair(index: Index, receipt: Receipt)
    | Evaluate(outcome: nat, now: int)
    | Inspect(facts: nat, archivedAt: int, now: int, existing: Option<Provenance>)
    | Accept(found: Option<Acceptance>)
    | Write(count: nat)
    | Crash

  datatype Result = Result(files: Files, proc: Proc)

  function AfterLink(job: Job): Proc {
    match job
    case PublishReceipt(r) => Referring(r)
    case PublishIndex(r, i) => RuntimeDone(r, i)
    case PublishProvenance(p, a) => CheckingTarget(PublishAcceptance(p, a))
    case PublishAcceptance(p, a) => ProvenanceDone(p, a)
  }

  /** Linking a complete partial file; a taken name stops the verifier. */
  function Link(files: Files, job: Job, written: string): Result {
    if Target(job) in files then Result(files, Stopped) else Result(files[Target(job) := written], AfterLink(job))
  }

  /** The runtime verifier's step from a fresh look at the directory to its receipt. */
  ghost function AdvanceEvaluation(c: Context, files: Files, p: Proc, a: Action): Option<Proc> {
    match (p, a)
    case (RuntimeStart, Go) => Some(SawIndex(IndexPath in files))
    case (SawIndex(indexExists), Go) =>
      Some(if ReceiptPath in files then LoadingReceipt else if indexExists then Stopped else Evaluating(None))
    case (LoadingReceipt, Load(ReceiptDoc(r))) =>
      if !c.Holds(files, ReceiptPath, ReceiptDoc(r)) then None
      else if r.run == c.run && r.runIndexDigest == c.RunIndexDigest() then Some(Evaluating(Some(r)))
      else Some(Stopped)
    case (Evaluating(existing), Evaluate(outcome, now)) =>
      var verifiedAt := if existing.Some? then existing.value.verifiedAt else now;
      var mine := Receipt(c.run, c.RunIndexDigest(), verifiedAt, outcome);
      Some(if existing.None? then Writing(PublishReceipt(mine), "")
           else if mine != existing.value then Stopped
           else Referring(mine))
    case _ => None
  }

  /** From the published receipt to the index that binds its bytes. */
  ghost function AdvanceIndex(c: Context, files: Files, p: Proc, a: Action): Option<Proc> {
    match (p, a)
    case (Referring(r), Go) =>
      Some(if ReceiptPath !in files || RunIndexPath !in files then Stopped
           else CheckingIndex(r, Index(c.run, c.digest(files[RunIndexPath]), c.digest(files[ReceiptPath]))))
    case (CheckingIndex(r, i), Go) =>
      if IndexPath in files then None else Some(Writing(PublishIndex(r, i), ""))
    case (CheckingIndex(r, i), Load(IndexDoc(found))) =>
      if !c.Holds(files, IndexPath, IndexDoc(found)) then None
      else Some(if found == i then RuntimeDone(r, i) else Stopped)
    case _ => None
  }

  /** The provenance verifier up to the two documents it wants to publish. */
  ghost function AdvanceProvenance(c: Context, files: Files, p: Proc, a: Action): Option<Proc> {
    match (p, a)
    case (ProvenanceStart, LoadPair(i, r)) =>
      if !c.Holds(files, IndexPath, IndexDoc(i)) || !c.Holds(files, ReceiptPath, ReceiptDoc(r)) then None
      else Some(if i.run == r.run && i.runIndexDigest == r.runIndexDigest && i.receiptDigest == c.digest(files[ReceiptPath])
                then Inspecting(i, r) else Stopped)
    case (Inspecting(i, r), Inspect(facts, archivedAt, now, existing)) =>
      if existing.Some? then
        if !c.Holds(files, ProvenancePath, ProvenanceDoc(existing.value)) then None
        else if !(archivedAt <= existing.value.verifiedAt <= now) then Some(Stopped)
        else Some(Timed(Provenance(i.run, c.seal(IndexDoc(i)), c.seal(ReceiptDoc(r)), existing.value.verifiedAt, facts),
                        Some(files[ProvenancePath])))
      else if ProvenancePath in files then None
      else Some(Timed(Provenance(i.run, c.seal(IndexDoc(i)), c.seal(ReceiptDoc(r)), now, facts), None))
    case (Timed(prov, seen), Accept(existing)) =>
      var accept := Acceptance(prov.run, c.seal(ProvenanceDoc(prov)), prov.verifiedAt, prov.facts);
      if existing.Some? then
        if !c.Holds(files, AcceptancePath, AcceptanceDoc(existing.value)) then None
        else Some(if existing.value.acceptedAt == prov.verifiedAt
                     && (seen.Some? ==> seen.value == c.encode(ProvenanceDoc(prov)))
                     && files[AcceptancePath] == c.encode(AcceptanceDoc(accept))
                  then CheckingTarget(PublishProvenance(prov, accept)) else Stopped)
      else if AcceptancePath in files then None
      else Some(if seen.Some? ==> seen.value == c.encode(ProvenanceDoc(prov))
                then CheckingTarget(PublishProvenance(prov, accept)) else Stopped)
    case _ => None
  }

  /** Publishing without replacement: the existence check, the writes of the partial file, the link. */
  ghost function AdvancePublishing(c: Context, files: Files, p: Proc, a: Action): Option<Result> {
    match (p, a)
    case (CheckingTarget(job), Go) =>
      Some(Result(files,
        if Target(job) !in files then Writing(job, "")
        else if files[Target(job)] == c.encode(Content(job)) then AfterLink(job)
        else Stopped))
    case (Writing(job, written), Write(count)) =>
      var source := c.encode(Content(job));
      if 0 < count && |written| + count <= |source|
      then Some(Result(files, Writing(job, written + source[|written|..|written| + count])))
      else None
    case (Writing(job, written), Go) =>
      if |written| == |c.encode(Content(job))| then Some(Link(files, job, written)) else None
    case _ => None
  }

  /** A step that reads but writes nothing. */
  ghost function AdvanceReading(c: Context, files: Files, p: Proc, a: Action): Option<Proc> {
    if p.ProvenanceStart? || p.Inspecting? || p.Timed? then AdvanceProvenance(c, files, p, a)
    else if p.Referring? || p.CheckingIndex? then AdvanceIndex(c, files, p, a)
    else AdvanceEvaluation(c, files, p, a)
  }

  /** One file system operation of one verifier; it may also stop anywhere, by an error or a crash. */
  ghost function Advance(c: Context, files: Files, p: Proc, a: Action): Option<Result> {
    if a == Crash then Some(Result(files, Stopped))
    else if p.CheckingTarget? || p.Writing? then AdvancePublishing(c, files, p, a)
    else
      match AdvanceReading(c, files, p, a)
      case None => None
      case Some(proc) => Some(Result(files, proc))
  }

  // ----- Runs ----------------------------------------------------------------------------------

  datatype State = State(files: Files, procs: map<nat, Proc>)

  /** A verifier starts, or one that runs takes a step. */
  datatype Event = StartRuntime(pid: nat) | StartProvenance(pid: nat) | Step(pid: nat, action: Action)

  ghost function Apply(c: Context, s: State, e: Event): Option<State> {
    match e
    case StartRuntime(pid) =>
      if pid in s.procs then None else Some(State(s.files, s.procs[pid := RuntimeStart]))
    case StartProvenance(pid) =>
      if pid in s.procs then None else Some(State(s.files, s.procs[pid := ProvenanceStart]))
    case Step(pid, action) =>
      if pid !in s.procs then None else
      match Advance(c, s.files, s.procs[pid], action)
      case None => None
      case Some(r) => Some(State(r.files, s.procs[pid := r.proc]))
  }

  /** The state after a sequence of events, when every one of them is possible. */
  ghost function Run(c: Context, s: State, events: seq<Event>): Option<State>
    decreases |events|
  {
    if events == [] then Some(s)
    else
      match Apply(c, s, events[0])
      case None => None
      case Some(next) => Run(c, next, events[1..])
  }

  /** Before any verifier runs only the run index is there. */
  function Initial(c: Context): State {
    State(map[RunIndexPath := c.runIndexSource], map[])
  }

  // ----- Invariant -------------------------------------------------------------------------------

  ghost predicate BoundReceipt(c: Context, files: Files, r: Receipt) {
    c.Holds(files, ReceiptPath, ReceiptDoc(r)) && r.run == c.run && r.runIndexDigest == c.RunIndexDigest()
  }

  /** The only index that can be published beside the receipt in place. */
  function IndexFor(c: Context, r: Receipt): Index {
    Index(c.run, c.RunIndexDigest(), c.digest(c.encode(ReceiptDoc(r))))
  }

  ghost predicate BoundIndex(c: Context, files: Files, r: Receipt, i: Index) {
    BoundReceipt(c, files, r) && c.Holds(files, IndexPath, IndexDoc(i)) && i == IndexFor(c, r)
  }

  ghost predicate BoundProvenance(c: Context, files: Files, p: Provenance) {
    c.Holds(files, ProvenancePath, ProvenanceDoc(p)) && NamesEvidence(c, files, p)
  }

  /** A provenance receipt names the receipt and index in place. */
  ghost predicate NamesEvidence(c: Context, files: Files, p: Provenance) {
    exists r, i :: BoundIndex(c, files, r, i) && p.run == c.run && p.indexSeal == c.seal(IndexDoc(i)) && p.receiptSeal == c.seal(ReceiptDoc(r))
  }

  /** The only acceptance that can be published beside the provenance receipt in place. */
  function AcceptanceFor(c: Context, p: Provenance): Acceptance {
    Acceptance(p.run, c.seal(ProvenanceDoc(p)), p.verifiedAt, p.facts)
  }

  ghost predicate Names(c: Context, p: Provenance, a: Acceptance) {
    a == AcceptanceFor(c, p)
  }

  ghost predicate BoundAcceptance(c: Context, files: Files, p: Provenance, a: Acceptance) {
    BoundProvenance(c, files, p) && c.Holds(files, AcceptancePath, AcceptanceDoc(a)) && Names(c, p, a)
  }

  ghost predicate FilesInv(c: Context, files: Files) {
    && RunIndexPath in files && files[RunIndexPath] == c.runIndexSource
    && (ReceiptPath in files ==> exists r :: BoundReceipt(c, files, r))
    && (IndexPath in files ==> exists r, i :: BoundIndex(c, files, r, i))
    && (ProvenancePath in files ==> exists p :: BoundProvenance(c, files, p))
    && (AcceptancePath in files ==> exists p, a :: BoundAcceptance(c, files, p, a))
  }

  ghost predicate JobInv(c: Context, files: Files, job: Job) {
    match job
    case PublishReceipt(r) => r.run == c.run && r.runIndexDigest == c.RunIndexDigest()
    case PublishIndex(r, i) => BoundReceipt(c, files, r) && i == IndexFor(c, r)
    case PublishProvenance(p, a) => NamesEvidence(c, files, p) && Names(c, p, a)
    case PublishAcceptance(p, a) => BoundProvenance(c, files, p) && Names(c, p, a)
  }

  ghost predicate ProcInv(c: Context, files: Files, p: Proc) {
    match p
    case RuntimeStart | LoadingReceipt | ProvenanceStart | Stopped => p.LoadingReceipt? ==> ReceiptPath in files
    case SawIndex(indexExists) => indexExists ==> IndexPath in files
    case Evaluating(existing) => existing.Some? ==> BoundReceipt(c, files, existing.value)
    case Referring(r) => BoundReceipt(c, files, r)
    case CheckingIndex(r, i) => BoundReceipt(c, files, r) && i == IndexFor(c, r)
    case RuntimeDone(r, i) => BoundIndex(c, files, r, i)
    case Inspecting(i, r) => BoundIndex(c, files, r, i)
    case Timed(prov, seen) => NamesEvidence(c, files, prov)
    case CheckingTarget(job) => JobInv(c, files, job) && !job.PublishReceipt? && !job.PublishIndex?
    case Writing(job, written) => JobInv(c, files, job) && written <= c.encode(Content(job))
    case ProvenanceDone(p, a) => BoundAcceptance(c, files, p, a)
  }

  ghost predicate Inv(c: Context, s: State) {
    FilesInv(c, s.files) && forall pid :: pid in s.procs ==> ProcInv(c, s.files, s.procs[pid])
  }

  /** Nothing that is published changes or disappears. */
  ghost predicate Grows(before: Files, after: Files) {
    forall path :: path in before ==> path in after && after[path] == before[path]
  }

  lemma EvidenceGrows(c: Context, before: Files, after: Files, p: Provenance)
    requires Grows(before, after) && NamesEvidence(c, before, p)
    ensures NamesEvidence(c, after, p)
  {
    var r, i :| BoundIndex(c, before, r, i) && p.run == c.run && p.indexSeal == c.seal(IndexDoc(i)) && p.receiptSeal == c.seal(ReceiptDoc(r));
    assert BoundIndex(c, after, r, i);
  }

  lemma JobInvGrows(c: Context, before: Files, after: Files, job: Job)
    requires Grows(before, after) && JobInv(c, before, job)
    ensures JobInv(c, after, job)
  {
    if job.PublishProvenance? || job.PublishAcceptance? {
      EvidenceGrows(c, before, after, job.provenance);
    }
  }

  lemma ProcInvGrows(c: Context, before: Files, after: Files, p: Proc)
    requires Grows(before, after) && ProcInv(c, before, p)
    ensures ProcInv(c, after, p)
  {
    match p
    case Timed(prov, _) => EvidenceGrows(c, before, after, prov);
    case CheckingTarget(job) => JobInvGrows(c, before, after, job);
    case Writing(job, _) => JobInvGrows(c, before, after, job);
    case ProvenanceDone(prov, _) => EvidenceGrows(c, before, after, prov);
    case _ =>
  }

  /** What the files show is still shown when files are added. */
  lemma ClaimsGrow(c: Context, before: Files, after: Files)
    requires Grows(before, after)
    ensures (exists r :: BoundReceipt(c, before, r)) ==> exists r :: BoundReceipt(c, after, r)
    ensures (exists r, i :: BoundIndex(c, before, r, i)) ==> exists r, i :: BoundIndex(c, after, r, i)
    ensures (exists p :: BoundProvenance(c, before, p)) ==> exists p :: BoundProvenance(c, after, p)
    ensures (exists p, a :: BoundAcceptance(c, before, p, a)) ==> exists p, a :: BoundAcceptance(c, after, p, a)
  {
    if r :| BoundReceipt(c, before, r) { assert BoundReceipt(c, after, r); }
    if r, i :| BoundIndex(c, before, r, i) { assert BoundIndex(c, after, r, i); }
    if p :| BoundProvenance(c, before, p) { EvidenceGrows(c, before, after, p); assert BoundProvenance(c, after, p); }
    if p, a :| BoundAcceptance(c, before, p, a) { EvidenceGrows(c, before, after, p); assert BoundAcceptance(c, after, p, a); }
  }

  /** Adding a document that its job has prepared keeps the files consistent. */
  lemma LinkKeeps(c: Context, files: Files, job: Job)
    requires FilesInv(c, files) && JobInv(c, files, job) && Target(job) !in files
    ensures var after := files[Target(job) := c.encode(Content(job))];
            Grows(files, after) && FilesInv(c, after) && ProcInv(c, after, AfterLink(job))
  {
    var after := files[Target(job) := c.encode(Content(job))];
    assert Grows(files, after);
    JobInvGrows(c, files, after, job);
    ClaimsGrow(c, files, after);
    hide NamesEvidence, Names;
    match job
    case PublishReceipt(r) => assert BoundReceipt(c, after, r);
    case PublishIndex(r, i) => assert BoundIndex(c, after, r, i);
    case PublishProvenance(p, _) => assert BoundProvenance(c, after, p);
    case PublishAcceptance(p, a) => assert BoundAcceptance(c, after, p, a);
  }

  lemma EvaluationKeeps(c: Context, files: Files, p: Proc, a: Action)
    requires c.Sound() && FilesInv(c, files) && ProcInv(c, files, p)
    requires AdvanceEvaluation(c, files, p, a).Some?
    ensures ProcInv(c, files, AdvanceEvaluation(c, files, p, a).value)
  {
    assert "" <= c.encode(AcceptanceDoc(Acceptance(0, 0, 0, 0)));
  }

  lemma IndexKeeps(c: Context, files: Files, p: Proc, a: Action)
    requires c.Sound() && FilesInv(c, files) && ProcInv(c, files, p)
    requires AdvanceIndex(c, files, p, a).Some?
    ensures ProcInv(c, files, AdvanceIndex(c, files, p, a).value)
  {
  }

  lemma ProvenanceKeeps(c: Context, files: Files, p: Proc, a: Action)
    requires c.Sound() && FilesInv(c, files) && ProcInv(c, files, p)
    requires AdvanceProvenance(c, files, p, a).Some?
    ensures ProcInv(c, files, AdvanceProvenance(c, files, p, a).value)
  {
    if p.ProvenanceStart? && a.LoadPair? {
      var r, i :| BoundIndex(c, files, r, i);
      assert ReceiptDoc(r) == ReceiptDoc(a.receipt) && IndexDoc(i) == IndexDoc(a.index);
    }
    if p.Inspecting? {
      assert BoundIndex(c, files, p.receipt, p.index);
    }
  }

  /** A verifier that finds its target in place, with its own bytes, goes on as if it had linked it. */
  lemma FoundTarget(c: Context, files: Files, job: Job)
    requires FilesInv(c, files) && JobInv(c, files, job) && !job.PublishReceipt? && !job.PublishIndex?
    requires Target(job) in files && files[Target(job)] == c.encode(Content(job))
    ensures ProcInv(c, files, AfterLink(job))
  {
  }

  lemma PublishingKeeps(c: Context, files: Files, p: Proc, a: Action)
    requires FilesInv(c, files) && ProcInv(c, files, p)
    requires AdvancePublishing(c, files, p, a).Some?
    ensures var r := AdvancePublishing(c, files, p, a).value;
            Grows(files, r.files) && FilesInv(c, r.files) && ProcInv(c, r.files, r.proc)
  {
    hide FilesInv, JobInv;
    var job := p.job;
    if p.CheckingTarget? {
      if Target(job) in files && files[Target(job)] == c.encode(Content(job)) { FoundTarget(c, files, job); }
    } else if a.Go? {
      assert p.written == c.encode(Content(job));
      if Target(job) !in files { LinkKeeps(c, files, job); }
    }
  }

  lemma ReadingKeeps(c: Context, files: Files, p: Proc, a: Action)
    requires c.Sound() && FilesInv(c, files) && ProcInv(c, files, p)
    requires AdvanceReading(c, files, p, a).Some?
    ensures ProcInv(c, files, AdvanceReading(c, files, p, a).value)
  {
    hide FilesInv, ProcInv, AdvanceProvenance, AdvanceIndex, AdvanceEvaluation;
    if p.ProvenanceStart? || p.Inspecting? || p.Timed? { ProvenanceKeeps(c, files, p, a); }
    else if p.Referring? || p.CheckingIndex? { IndexKeeps(c, files, p, a); }
    else { EvaluationKeeps(c, files, p, a); }
  }

  /** Every operation of every verifier keeps the invariant and only adds files. */
  lemma AdvanceKeeps(c: Context, files: Files, p: Proc, a: Action)
    requires c.Sound() && FilesInv(c, files) && ProcInv(c, files, p)
    requires Advance(c, files, p, a).Some?
    ensures var r := Advance(c, files, p, a).value;
            Grows(files, r.files) && FilesInv(c, r.files) && ProcInv(c, r.files, r.proc)
  {
    hide FilesInv, AdvancePublishing, AdvanceReading;
    if a != Crash {
      if p.CheckingTarget? || p.Writing? { PublishingKeeps(c, files, p, a); }
      else { ReadingKeeps(c, files, p, a); }
    }
  }

  lemma ApplyKeeps(c: Context, s: State, e: Event)
    requires c.Sound() && Inv(c, s) && Apply(c, s, e).Some?
    ensures Inv(c, Apply(c, s, e).value) && Grows(s.files, Apply(c, s, e).value.files)
  {
    if e.Step? {
      var p := s.procs[e.pid];
      AdvanceKeeps(c, s.files, p, e.action);
      var after := Apply(c, s, e).value;
      forall pid | pid in after.procs ensures ProcInv(c, after.files, after.procs[pid]) {
        if pid != e.pid { ProcInvGrows(c, s.files, after.files, s.procs[pid]); }
      }
    }
  }

  /** Over any run of any number of verifiers, with crashes anywhere, the invariant holds and no
      published document changes. */
  lemma {:induction false} RunKeeps(c: Context, s: State, events: seq<Event>)
    requires c.Sound() && Inv(c, s) && Run(c, s, events).Some?
    ensures Inv(c, Run(c, s, events).value) && Grows(s.files, Run(c, s, events).value.files)
    decreases |events|
  {
    if events != [] {
      ApplyKeeps(c, s, events[0]);
      RunKeeps(c, Apply(c, s, events[0]).value, events[1..]);
    }
  }

  // ----- What a reader of the directory may rely on ---------------------------------------------------

  /** In every reachable state an index stands beside its receipt and binds its bytes, and an
      acceptance stands beside the provenance receipt it names, which names that index and receipt. */
  lemma PublishedPairsHold(c: Context, events: seq<Event>)
    requires c.Sound() && Run(c, Initial(c), events).Some?
    ensures var files := Run(c, Initial(c), events).value.files;
            && (IndexPath in files ==>
                 ReceiptPath in files
                 && exists i :: c.Holds(files, IndexPath, IndexDoc(i)) && i.receiptDigest == c.digest(files[ReceiptPath]))
            && (ProvenancePath in files ==> IndexPath in files && exists p :: BoundProvenance(c, files, p))
            && (AcceptancePath in files ==> ProvenancePath in files && exists p, a :: BoundAcceptance(c, files, p, a))
  {
    RunKeeps(c, Initial(c), events);
    var files := Run(c, Initial(c), events).value.files;
    if IndexPath in files {
      var r, i :| BoundIndex(c, files, r, i);
      assert c.Holds(files, IndexPath, IndexDoc(i));
    }
  }

  /** Two runtime verifiers that complete, at any two points of a run, completed the same pair. */
  lemma CompletedPairIsUnique(c: Context, before: seq<Event>, after: seq<Event>, first: nat, second: nat)
    requires c.Sound() && Run(c, Initial(c), before).Some?
    requires Run(c, Run(c, Initial(c), before).value, after).Some?
    requires var s := Run(c, Initial(c), before).value; first in s.procs && s.procs[first].RuntimeDone?
    requires var s := Run(c, Run(c, Initial(c), before).value, after).value; second in s.procs && s.procs[second].RuntimeDone?
    ensures Run(c, Initial(c), before).value.procs[first]
         == Run(c, Run(c, Initial(c), before).value, after).value.procs[second]
  {
    var s := Run(c, Initial(c), before).value;
    RunKeeps(c, Initial(c), before);
    RunKeeps(c, s, after);
    var t := Run(c, s, after).value;
    var p, q := s.procs[first], t.procs[second];
    assert ProcInv(c, s.files, p) && ProcInv(c, t.files, q);
    assert ReceiptDoc(p.receipt) == ReceiptDoc(q.receipt);
  }

  /** The same for provenance verifiers and the pair they complete. */
  lemma CompletedAcceptanceIsUnique(c: Context, before: seq<Event>, after: seq<Event>, first: nat, second: nat)
    requires c.Sound() && Run(c, Initial(c), before).Some?
    requires Run(c, Run(c, Initial(c), before).value, after).Some?
    requires var s := Run(c, Initial(c), before).value; first in s.procs && s.procs[first].ProvenanceDone?
    requires var s := Run(c, Run(c, Initial(c), before).value, after).value; second in s.procs && s.procs[second].ProvenanceDone?
    ensures Run(c, Initial(c), before).value.procs[first]
         == Run(c, Run(c, Initial(c), before).value, after).value.procs[second]
  {
    var s := Run(c, Initial(c), before).value;
    RunKeeps(c, Initial(c), before);
    RunKeeps(c, s, after);
    var t := Run(c, s, after).value;
    var p, q := s.procs[first], t.procs[second];
    assert ProcInv(c, s.files, p) && ProcInv(c, t.files, q);
    assert ProvenanceDoc(p.provenance) == ProvenanceDoc(q.provenance);
    assert AcceptanceDoc(p.acceptance) == AcceptanceDoc(q.acceptance);
  }

  // ----- What a verifier completes is what it computed ---------------------------------------------------

  /** How far a verifier's own computation is: not made, made and carried on, or given up. */
  datatype Standing = Pending | Carries(finding: Finding) | Over

  datatype Finding = Outcome(outcome: nat) | Facts(facts: nat, verifiedAt: int) | OutOfTime

  function FindingOf(job: Job): Finding {
    match job
    case PublishReceipt(r) => Outcome(r.outcome)
    case PublishIndex(r, _) => Outcome(r.outcome)
    case PublishProvenance(p, _) => Facts(p.facts, p.verifiedAt)
    case PublishAcceptance(p, _) => Facts(p.facts, p.verifiedAt)
  }

  function StandingOf(p: Proc): Standing {
    match p
    case RuntimeStart | SawIndex(_) | LoadingReceipt | Evaluating(_) | ProvenanceStart | Inspecting(_, _) => Pending
    case Referring(r) => Carries(Outcome(r.outcome))
    case CheckingIndex(r, _) => Carries(Outcome(r.outcome))
    case RuntimeDone(r, _) => Carries(Outcome(r.outcome))
    case Timed(prov, _) => Carries(Facts(prov.facts, prov.verifiedAt))
    case ProvenanceDone(prov, _) => Carries(Facts(prov.facts, prov.verifiedAt))
    case CheckingTarget(job) => Carries(FindingOf(job))
    case Writing(job, _) => Carries(FindingOf(job))
    case Stopped => Over
  }

  /** What an action computes. Facts are of the time that an existing provenance receipt records, which must lie
      between the archive and the clock, and else of the clock. */
  function FindingBy(a: Action): seq<Finding> {
    match a
    case Evaluate(outcome, _) => [Outcome(outcome)]
    case Inspect(facts, archivedAt, now, Some(p)) =>
      if archivedAt <= p.verifiedAt <= now then [Facts(facts, p.verifiedAt)] else [OutOfTime]
    case Inspect(facts, _, now, None) => [Facts(facts, now)]
    case _ => []
  }

  /** What one verifier computes over a sequence of events, in order. */
  function Computed(events: seq<Event>, pid: nat): seq<Finding> {
    if events == [] then []
    else ComputedBy(events[0], pid) + Computed(events[1..], pid)
  }

  function ComputedBy(e: Event, pid: nat): seq<Finding> {
    if e.Step? && e.pid == pid then FindingBy(e.action) else []
  }

  /** How a verifier's standing may change when these findings are made. */
  predicate Follows(before: Standing, found: seq<Finding>, after: Standing) {
    && (before.Over? ==> after.Over?)
    && (after.Carries? ==> if found == [] then before == after else before.Pending? && found == [after.finding])
    && (after.Pending? ==> before.Pending? && found == [])
  }

  /** Only the step that computes changes what a verifier carries, and it carries what that step computes. */
  lemma ReadingCarries(c: Context, files: Files, p: Proc, a: Action)
    requires AdvanceReading(c, files, p, a).Some?
    ensures Follows(StandingOf(p), FindingBy(a), StandingOf(AdvanceReading(c, files, p, a).value))
  {
    hide Context.Holds;
  }

  lemma StepCarries(c: Context, files: Files, p: Proc, a: Action)
    requires Advance(c, files, p, a).Some?
    ensures Follows(StandingOf(p), FindingBy(a), StandingOf(Advance(c, files, p, a).value.proc))
  {
    hide AdvanceReading;
    if a != Crash && !p.CheckingTarget? && !p.Writing? { ReadingCarries(c, files, p, a); }
  }

  ghost function StandingIn(s: State, pid: nat): Standing {
    if pid in s.procs then StandingOf(s.procs[pid]) else Pending
  }

  lemma EventCarries(c: Context, s: State, e: Event, pid: nat)
    requires Apply(c, s, e).Some?
    ensures Follows(StandingIn(s, pid), ComputedBy(e, pid), StandingIn(Apply(c, s, e).value, pid))
  {
    hide Advance, StandingOf, FindingBy, Follows;
    if e.Step? { StepCarries(c, s.files, s.procs[e.pid], e.action); }
    if !e.Step? || e.pid != pid { NothingFollows(s, e, pid); }
    assert StandingOf(RuntimeStart) == StandingOf(ProvenanceStart) == Pending by { StartsPend(); }
  }

  lemma StartsPend()
    ensures StandingOf(RuntimeStart) == StandingOf(ProvenanceStart) == Pending
  {
  }

  lemma NothingFollows(s: State, e: Event, pid: nat)
    ensures Follows(StandingIn(s, pid), [], StandingIn(s, pid))
  {
  }

  /** A verifier that carries a finding at the end of a run computed exactly that one, and only once. */
  lemma {:induction false} CarriesWhatItComputed(c: Context, s: State, events: seq<Event>, pid: nat)
    requires Run(c, s, events).Some?
    ensures Follows(StandingIn(s, pid), Computed(events, pid), StandingIn(Run(c, s, events).value, pid))
    decreases |events|
  {
    hide Apply, StandingIn, ComputedBy;
    if events != [] {
      EventCarries(c, s, events[0], pid);
      CarriesWhatItComputed(c, Apply(c, s, events[0]).value, events[1..], pid);
    }
  }

  /** A runtime verifier that completes evaluated once, and its evaluation gave the outcome that its receipt
      records. */
  lemma CompletedOutcomeIsOwn(c: Context, events: seq<Event>, pid: nat)
    requires Run(c, Initial(c), events).Some?
    requires var s := Run(c, Initial(c), events).value; pid in s.procs && s.procs[pid].RuntimeDone?
    ensures Computed(events, pid) == [Outcome(Run(c, Initial(c), events).value.procs[pid].receipt.outcome)]
  {
    CarriesWhatItComputed(c, Initial(c), events, pid);
  }

  /** The same for a provenance verifier and the facts and the time that its receipt and acceptance record. */
  lemma CompletedFactsAreOwn(c: Context, events: seq<Event>, pid: nat)
    requires c.Sound() && Run(c, Initial(c), events).Some?
    requires var s := Run(c, Initial(c), events).value; pid in s.procs && s.procs[pid].ProvenanceDone?
    ensures var p := Run(c, Initial(c), events).value.procs[pid];
            && Computed(events, pid) == [Facts(p.provenance.facts, p.provenance.verifiedAt)]
            && p.acceptance.facts == p.provenance.facts && p.acceptance.acceptedAt == p.provenance.verifiedAt
  {
    CarriesWhatItComputed(c, Initial(c), events, pid);
    RunKeeps(c, Initial(c), events);
    var s := Run(c, Initial(c), events).value;
    assert ProcInv(c, s.files, s.procs[pid]);
  }

  /** Once a receipt is published, a verifier whose evaluation gives another outcome never completes, whatever
      else happens. */
  lemma ConflictNeverCompletes(c: Context, before: seq<Event>, after: seq<Event>, r: Receipt, pid: nat, outcome: nat)
    requires c.Sound() && Run(c, Initial(c), before).Some? && Run(c, Run(c, Initial(c), before).value, after).Some?
    requires c.Holds(Run(c, Initial(c), before).value.files, ReceiptPath, ReceiptDoc(r))
    requires Outcome(outcome) in Computed(before, pid) + Computed(after, pid) && outcome != r.outcome
    ensures var s := Run(c, Run(c, Initial(c), before).value, after).value; pid in s.procs ==> !s.procs[pid].RuntimeDone?
  {
    RunsJoin(c, Initial(c), before, after);
    ComputedJoins(before, after, pid);
    var s := Run(c, Initial(c), before).value;
    var t := Run(c, s, after).value;
    RunKeeps(c, Initial(c), before);
    RunKeeps(c, s, after);
    assert c.Holds(t.files, ReceiptPath, ReceiptDoc(r));
    if pid in t.procs && t.procs[pid].RuntimeDone? {
      DoneIsPublished(c, t, pid, r);
      CompletedOutcomeIsOwn(c, before + after, pid);
    }
  }

  lemma DoneIsPublished(c: Context, s: State, pid: nat, r: Receipt)
    requires c.Sound() && Inv(c, s) && c.Holds(s.files, ReceiptPath, ReceiptDoc(r))
    requires pid in s.procs && s.procs[pid].RuntimeDone?
    ensures s.procs[pid].receipt == r
  {
    assert ProcInv(c, s.files, s.procs[pid]);
    assert ReceiptDoc(s.procs[pid].receipt) == ReceiptDoc(r);
  }

  lemma {:induction false} RunsJoin(c: Context, s: State, before: seq<Event>, after: seq<Event>)
    requires Run(c, s, before).Some?
    ensures Run(c, s, before + after) == Run(c, Run(c, s, before).value, after)
    decreases |before|
  {
    if before == [] {
      assert before + after == after;
    } else {
      assert (before + after)[1..] == before[1..] + after;
      RunsJoin(c, Apply(c, s, before[0]).value, before[1..], after);
    }
  }

  lemma {:induction false} ComputedJoins(before: seq<Event>, after: seq<Event>, pid: nat)
    ensures Computed(before + after, pid) == Computed(before, pid) + Computed(after, pid)
  {
    if before == [] {
      assert before + after == after;
    } else {
      assert (before + after)[1..] == before[1..] + after;
      ComputedJoins(before[1..], after, pid);
    }
  }

  /** In a directory that only verifiers write to, the two errors about a foreign or conflicting
      index can never be raised: an index is never found without its receipt, and an index that is
      found is the one the verifier is about to publish. */
  lemma IndexErrorsAreUnreachable(c: Context, s: State, pid: nat)
    requires c.Sound() && Inv(c, s) && pid in s.procs
    ensures s.procs[pid].SawIndex? && s.procs[pid].indexExists ==> ReceiptPath in s.files
    ensures s.procs[pid].CheckingIndex? && IndexPath in s.files ==> c.Holds(s.files, IndexPath, IndexDoc(s.procs[pid].index))
  {
    var p := s.procs[pid];
    assert ProcInv(c, s.files, p);
    if IndexPath in s.files {
      var r, i :| BoundIndex(c, s.files, r, i);
      if p.CheckingIndex? {
        assert ReceiptDoc(r) == ReceiptDoc(p.receipt);
      }
    }
  }

  // ----- In any directory, foreign documents included -----------------------------------------------------

  /** The receipt in place is of this run and of its run index. */
  ghost predicate OwnReceipt(c: Context, files: Files, r: Receipt) {
    c.Holds(files, ReceiptPath, ReceiptDoc(r)) && r.run == c.run && r.runIndexDigest == c.RunIndexDigest()
  }

  /** The index binds the bytes of the run index and the receipt in place. */
  ghost predicate BindsFiles(c: Context, files: Files, i: Index) {
    && RunIndexPath in files && ReceiptPath in files && i.run == c.run
    && i.runIndexDigest == c.digest(files[RunIndexPath]) && i.receiptDigest == c.digest(files[ReceiptPath])
  }

  /** The index and the receipt in place agree on the run and on the run index, and the index binds the receipt. */
  ghost predicate AgreeingPair(c: Context, files: Files, i: Index, r: Receipt) {
    && c.Holds(files, IndexPath, IndexDoc(i)) && c.Holds(files, ReceiptPath, ReceiptDoc(r))
    && i.run == r.run && i.runIndexDigest == r.runIndexDigest && i.receiptDigest == c.digest(files[ReceiptPath])
  }

  /** The provenance receipt names an agreeing pair in place. */
  ghost predicate NamesPair(c: Context, files: Files, p: Provenance) {
    exists i, r :: AgreeingPair(c, files, i, r) && p.run == i.run && p.indexSeal == c.seal(IndexDoc(i)) && p.receiptSeal == c.seal(ReceiptDoc(r))
  }

  ghost predicate JobCertified(c: Context, files: Files, job: Job) {
    match job
    case PublishReceipt(r) => r.run == c.run && r.runIndexDigest == c.RunIndexDigest()
    case PublishIndex(r, i) => OwnReceipt(c, files, r) && BindsFiles(c, files, i)
    case PublishProvenance(p, a) => NamesPair(c, files, p) && a == AcceptanceFor(c, p)
    case PublishAcceptance(p, a) => NamesPair(c, files, p) && a == AcceptanceFor(c, p) && c.Holds(files, ProvenancePath, ProvenanceDoc(p))
  }

  /** What a verifier has checked so far, whoever wrote the files. */
  ghost predicate Certified(c: Context, files: Files, p: Proc) {
    match p
    case RuntimeStart | SawIndex(_) | LoadingReceipt | ProvenanceStart | Stopped => true
    case Evaluating(existing) => existing.Some? ==> OwnReceipt(c, files, existing.value)
    case Referring(r) => OwnReceipt(c, files, r)
    case CheckingIndex(r, i) => OwnReceipt(c, files, r) && BindsFiles(c, files, i)
    case RuntimeDone(r, i) => OwnReceipt(c, files, r) && BindsFiles(c, files, i) && c.Holds(files, IndexPath, IndexDoc(i))
    case Inspecting(i, r) => AgreeingPair(c, files, i, r)
    case Timed(prov, _) => NamesPair(c, files, prov)
    case CheckingTarget(job) => JobCertified(c, files, job) && !job.PublishReceipt? && !job.PublishIndex?
    case Writing(job, written) => JobCertified(c, files, job) && written <= c.encode(Content(job))
    case ProvenanceDone(p, a) =>
      NamesPair(c, files, p) && a == AcceptanceFor(c, p)
      && c.Holds(files, ProvenancePath, ProvenanceDoc(p)) && c.Holds(files, AcceptancePath, AcceptanceDoc(a))
  }

  lemma NamesPairGrows(c: Context, before: Files, after: Files, p: Provenance)
    requires Grows(before, after) && NamesPair(c, before, p)
    ensures NamesPair(c, after, p)
  {
    var i, r :| AgreeingPair(c, before, i, r) && p.run == i.run && p.indexSeal == c.seal(IndexDoc(i)) && p.receiptSeal == c.seal(ReceiptDoc(r));
    assert AgreeingPair(c, after, i, r);
  }

  lemma JobCertifiedGrows(c: Context, before: Files, after: Files, job: Job)
    requires Grows(before, after) && JobCertified(c, before, job)
    ensures JobCertified(c, after, job)
  {
    hide NamesPair, AcceptanceFor;
    if job.PublishProvenance? || job.PublishAcceptance? { NamesPairGrows(c, before, after, job.provenance); }
  }

  lemma CertifiedGrows(c: Context, before: Files, after: Files, p: Proc)
    requires Grows(before, after) && Certified(c, before, p)
    ensures Certified(c, after, p)
  {
    hide NamesPair, AcceptanceFor, JobCertified;
    match p
    case Timed(prov, _) => NamesPairGrows(c, before, after, prov);
    case CheckingTarget(job) => JobCertifiedGrows(c, before, after, job);
    case Writing(job, _) => JobCertifiedGrows(c, before, after, job);
    case ProvenanceDone(prov, _) => NamesPairGrows(c, before, after, prov);
    case _ =>
  }

  lemma LinkCertifies(c: Context, files: Files, job: Job)
    requires JobCertified(c, files, job) && Target(job) !in files
    ensures var after := files[Target(job) := c.encode(Content(job))];
            Grows(files, after) && Certified(c, after, AfterLink(job))
  {
    var after := files[Target(job) := c.encode(Content(job))];
    assert Grows(files, after);
    JobCertifiedGrows(c, files, after, job);
    hide NamesPair, AcceptanceFor;
  }

  lemma RuntimeCertifies(c: Context, files: Files, p: Proc, a: Action)
    requires Certified(c, files, p)
    ensures AdvanceEvaluation(c, files, p, a).Some? ==> Certified(c, files, AdvanceEvaluation(c, files, p, a).value)
    ensures AdvanceIndex(c, files, p, a).Some? ==> Certified(c, files, AdvanceIndex(c, files, p, a).value)
  {
    hide NamesPair, AcceptanceFor;
  }

  lemma ProvenanceCertifies(c: Context, files: Files, p: Proc, a: Action)
    requires Certified(c, files, p) && AdvanceProvenance(c, files, p, a).Some?
    ensures Certified(c, files, AdvanceProvenance(c, files, p, a).value)
  {
    if p.Inspecting? { assert AgreeingPair(c, files, p.index, p.receipt); }
    hide OwnReceipt, BindsFiles;
  }

  lemma PublishingCertifies(c: Context, files: Files, p: Proc, a: Action)
    requires Certified(c, files, p) && AdvancePublishing(c, files, p, a).Some?
    ensures var r := AdvancePublishing(c, files, p, a).value;
            Grows(files, r.files) && Certified(c, r.files, r.proc)
  {
    hide NamesPair, AcceptanceFor, OwnReceipt, BindsFiles;
    var job := p.job;
    if p.Writing? && a.Go? {
      assert p.written == c.encode(Content(job));
      if Target(job) !in files { LinkCertifies(c, files, job); }
    }
  }

  lemma ReadingCertifies(c: Context, files: Files, p: Proc, a: Action)
    requires Certified(c, files, p) && AdvanceReading(c, files, p, a).Some?
    ensures Certified(c, files, AdvanceReading(c, files, p, a).value)
  {
    hide Certified, AdvanceProvenance, AdvanceIndex, AdvanceEvaluation;
    if p.ProvenanceStart? || p.Inspecting? || p.Timed? { ProvenanceCertifies(c, files, p, a); }
    else { RuntimeCertifies(c, files, p, a); }
  }

  lemma StepCertifies(c: Context, files: Files, p: Proc, a: Action)
    requires Certified(c, files, p) && Advance(c, files, p, a).Some?
    ensures var r := Advance(c, files, p, a).value; Grows(files, r.files) && Certified(c, r.files, r.proc)
  {
    hide AdvancePublishing, AdvanceReading;
    if a != Crash {
      if p.CheckingTarget? || p.Writing? { PublishingCertifies(c, files, p, a); }
      else { ReadingCertifies(c, files, p, a); }
    }
  }

  lemma EventCertifies(c: Context, s: State, e: Event)
    requires Apply(c, s, e).Some? && forall pid :: pid in s.procs ==> Certified(c, s.files, s.procs[pid])
    ensures var t := Apply(c, s, e).value;
            Grows(s.files, t.files) && forall pid :: pid in t.procs ==> Certified(c, t.files, t.procs[pid])
  {
    if e.Step? {
      StepCertifies(c, s.files, s.procs[e.pid], e.action);
      var t := Apply(c, s, e).value;
      forall pid | pid in t.procs ensures Certified(c, t.files, t.procs[pid]) {
        if pid != e.pid { CertifiedGrows(c, s.files, t.files, s.procs[pid]); }
      }
    }
  }

  lemma {:induction false} RunCertifies(c: Context, s: State, events: seq<Event>)
    requires Run(c, s, events).Some? && forall pid :: pid in s.procs ==> Certified(c, s.files, s.procs[pid])
    ensures var t := Run(c, s, events).value;
            Grows(s.files, t.files) && forall pid :: pid in t.procs ==> Certified(c, t.files, t.procs[pid])
    decreases |events|
  {
    hide Certified;
    if events != [] {
      EventCertifies(c, s, events[0]);
      RunCertifies(c, Apply(c, s, events[0]).value, events[1..]);
    }
  }

  /** Whatever a directory holds before the verifiers start: one that completes stands before a receipt of its own
      run and run index and an index that binds both files, or before a provenance receipt that names an agreeing
      pair and its acceptance. Nothing that was there has changed. */
  lemma CompletionIsCertified(c: Context, files: Files, events: seq<Event>, pid: nat)
    requires Run(c, State(files, map[]), events).Some? && pid in Run(c, State(files, map[]), events).value.procs
    ensures var s := Run(c, State(files, map[]), events).value;
            && Grows(files, s.files)
            && match s.procs[pid]
               case RuntimeDone(r, i) =>
                 && c.Holds(s.files, ReceiptPath, ReceiptDoc(r)) && c.Holds(s.files, IndexPath, IndexDoc(i))
                 && r.run == i.run == c.run && r.runIndexDigest == c.RunIndexDigest()
                 && RunIndexPath in s.files && i.runIndexDigest == c.digest(s.files[RunIndexPath])
                 && i.receiptDigest == c.digest(s.files[ReceiptPath])
               case ProvenanceDone(p, a) =>
                 && c.Holds(s.files, ProvenancePath, ProvenanceDoc(p)) && c.Holds(s.files, AcceptancePath, AcceptanceDoc(a))
                 && NamesPair(c, s.files, p)
                 && a == Acceptance(p.run, c.seal(ProvenanceDoc(p)), p.verifiedAt, p.facts)
               case _ => true
  {
    RunCertifies(c, State(files, map[]), events);
    hide NamesPair, Run;
  }

  // ----- What foreign documents prevent --------------------------------------------------------------------

  /** An acceptance that was there before is the one of this provenance receipt. */
  ghost predicate Beside(c: Context, before: Files, p: Provenance) {
    AcceptancePath in before ==> before[AcceptancePath] == c.encode(AcceptanceDoc(AcceptanceFor(c, p)))
  }

  ghost predicate JobBlocked(c: Context, before: Files, job: Job) {
    match job
    case PublishReceipt(_) => IndexPath in before ==> ReceiptPath in before
    case PublishProvenance(p, a) => a == AcceptanceFor(c, p) && Beside(c, before, p)
    case _ => true
  }

  ghost predicate ProcBlocked(c: Context, before: Files, p: Proc) {
    match p
    case SawIndex(indexExists) => IndexPath in before ==> indexExists
    case Evaluating(existing) => existing.Some? || (IndexPath in before ==> ReceiptPath in before)
    case CheckingTarget(job) => JobBlocked(c, before, job)
    case Writing(job, written) => JobBlocked(c, before, job) && written <= c.encode(Content(job))
    case _ => true
  }

  ghost predicate FilesBlocked(c: Context, before: Files, files: Files) {
    && Grows(before, files)
    && (ReceiptPath in files && IndexPath in before ==> ReceiptPath in before)
    && (ProvenancePath in files && ProvenancePath !in before ==>
          exists p :: c.Holds(files, ProvenancePath, ProvenanceDoc(p)) && Beside(c, before, p))
  }

  lemma StepBlocked(c: Context, before: Files, files: Files, p: Proc, a: Action)
    requires FilesBlocked(c, before, files) && ProcBlocked(c, before, p) && Advance(c, files, p, a).Some?
    ensures var r := Advance(c, files, p, a).value;
            FilesBlocked(c, before, r.files) && ProcBlocked(c, before, r.proc)
  {
    if a != Crash {
      if p.CheckingTarget? || p.Writing? {
        PublishingBlocked(c, before, files, p, a);
      } else {
        ReadingBlocked(c, before, files, p, a);
      }
    }
  }

  lemma ReadingBlocked(c: Context, before: Files, files: Files, p: Proc, a: Action)
    requires FilesBlocked(c, before, files) && ProcBlocked(c, before, p) && AdvanceReading(c, files, p, a).Some?
    ensures ProcBlocked(c, before, AdvanceReading(c, files, p, a).value)
  {
  }

  lemma PublishingBlocked(c: Context, before: Files, files: Files, p: Proc, a: Action)
    requires FilesBlocked(c, before, files) && ProcBlocked(c, before, p) && AdvancePublishing(c, files, p, a).Some?
    ensures var r := AdvancePublishing(c, files, p, a).value;
            FilesBlocked(c, before, r.files) && ProcBlocked(c, before, r.proc)
  {
    var job := p.job;
    hide Beside, AcceptanceFor;
    if p.Writing? && a.Go? && Target(job) !in files {
      var after := files[Target(job) := c.encode(Content(job))];
      assert p.written == c.encode(Content(job));
      if ProvenancePath in after && ProvenancePath !in before {
        if job.PublishProvenance? {
          assert c.Holds(after, ProvenancePath, ProvenanceDoc(job.provenance));
        } else {
          var q :| c.Holds(files, ProvenancePath, ProvenanceDoc(q)) && Beside(c, before, q);
          assert c.Holds(after, ProvenancePath, ProvenanceDoc(q));
        }
      }
    }
  }

  lemma {:induction false} RunBlocked(c: Context, before: Files, s: State, events: seq<Event>)
    requires FilesBlocked(c, before, s.files) && forall pid :: pid in s.procs ==> ProcBlocked(c, before, s.procs[pid])
    requires Run(c, s, events).Some?
    ensures FilesBlocked(c, before, Run(c, s, events).value.files)
    decreases |events|
  {
    hide FilesBlocked, ProcBlocked, Advance;
    if events != [] {
      var e := events[0];
      assert ProcBlocked(c, before, RuntimeStart) && ProcBlocked(c, before, ProvenanceStart) by { StartsBlocked(c, before); }
      if e.Step? { StepBlocked(c, before, s.files, s.procs[e.pid], e.action); }
      RunBlocked(c, before, Apply(c, s, e).value, events[1..]);
    }
  }

  lemma StartsBlocked(c: Context, before: Files)
    ensures ProcBlocked(c, before, RuntimeStart) && ProcBlocked(c, before, ProvenanceStart)
  {
  }

  /** Beside an index that was there before without a receipt no receipt is ever published, and beside an acceptance
      that was there before no provenance receipt but the one it names. */
  lemma ForeignDocumentsBlock(c: Context, files: Files, events: seq<Event>)
    requires Run(c, State(files, map[]), events).Some?
    ensures var after := Run(c, State(files, map[]), events).value.files;
            && (IndexPath in files && ReceiptPath !in files ==> ReceiptPath !in after)
            && (AcceptancePath in files && ProvenancePath !in files && ProvenancePath in after ==>
                  exists p :: c.Holds(after, ProvenancePath, ProvenanceDoc(p))
                              && files[AcceptancePath] == c.encode(AcceptanceDoc(AcceptanceFor(c, p))))
  {
    RunBlocked(c, files, State(files, map[]), events);
    hide AcceptanceFor, Run;
  }

  // ----- Retries ---------------------------------------------------------------------------------------

  /** What a new runtime verifier does, alone, until it has formed its index; its evaluation repeats the
      recorded outcome. */
  function RetryHead(r: Receipt, tail: seq<Action>): seq<Action> {
    [Go] + ([Go] + ([Load(ReceiptDoc(r))] + ([Evaluate(r.outcome, 0)] + ([Go] + tail))))
  }

  /** It then finds its index in place, or writes and links it. */
  function RetryTail(c: Context, i: Index, published: bool): seq<Action> {
    if published then [Load(IndexDoc(i))] else [Go] + ([Write(|c.encode(IndexDoc(i))|)] + [Go])
  }

  function Steps(pid: nat, actions: seq<Action>): seq<Event> {
    if actions == [] then [] else [Step(pid, actions[0])] + Steps(pid, actions[1..])
  }

  /** One step of a verifier that runs alone. */
  lemma Alone(c: Context, files: Files, procs: map<nat, Proc>, pid: nat, p: Proc, a: Action, after: Files, q: Proc, tail: seq<Action>)
    requires Advance(c, files, p, a) == Some(Result(after, q))
    ensures Run(c, State(files, procs[pid := p]), Steps(pid, [a] + tail)) == Run(c, State(after, procs[pid := q]), Steps(pid, tail))
  {
    hide Advance;
    assert procs[pid := p][pid := q] == procs[pid := q];
    assert ([a] + tail)[1..] == tail;
    var events := Steps(pid, [a] + tail);
    assert events[0] == Step(pid, a) && events[1..] == Steps(pid, tail);
  }

  lemma RetryFormsIndex(c: Context, files: Files, procs: map<nat, Proc>, pid: nat, r: Receipt, tail: seq<Action>)
    requires FilesInv(c, files) && BoundReceipt(c, files, r)
    ensures Run(c, State(files, procs[pid := RuntimeStart]), Steps(pid, RetryHead(r, tail)))
         == Run(c, State(files, procs[pid := CheckingIndex(r, IndexFor(c, r))]), Steps(pid, tail))
  {
    hide Run, Steps;
    var t3 := [Evaluate(r.outcome, 0)] + ([Go] + tail);
    var t2 := [Load(ReceiptDoc(r))] + t3;
    Alone(c, files, procs, pid, RuntimeStart, Go, files, SawIndex(IndexPath in files), [Go] + t2);
    Alone(c, files, procs, pid, SawIndex(IndexPath in files), Go, files, LoadingReceipt, t2);
    Alone(c, files, procs, pid, LoadingReceipt, Load(ReceiptDoc(r)), files, Evaluating(Some(r)), t3);
    Alone(c, files, procs, pid, Evaluating(Some(r)), Evaluate(r.outcome, 0), files, Referring(r), [Go] + tail);
    Alone(c, files, procs, pid, Referring(r), Go, files, CheckingIndex(r, IndexFor(c, r)), tail);
  }

  lemma RetryPublishesIndex(c: Context, files: Files, procs: map<nat, Proc>, pid: nat, r: Receipt)
    requires IndexPath !in files && c.encode(IndexDoc(IndexFor(c, r))) != ""
    ensures Run(c, State(files, procs[pid := CheckingIndex(r, IndexFor(c, r))]), Steps(pid, RetryTail(c, IndexFor(c, r), false)))
         == Some(State(files[IndexPath := c.encode(IndexDoc(IndexFor(c, r)))], procs[pid := RuntimeDone(r, IndexFor(c, r))]))
  {
    var i := IndexFor(c, r);
    var content := c.encode(IndexDoc(i));
    var job, after := PublishIndex(r, i), files[IndexPath := content];
    assert "" + content[0..|content|] == content;
    assert Run(c, State(after, procs[pid := RuntimeDone(r, i)]), Steps(pid, [])) == Some(State(after, procs[pid := RuntimeDone(r, i)]));
    assert [Go] + [] == [Go];
    hide Run, Steps;
    Alone(c, files, procs, pid, CheckingIndex(r, i), Go, files, Writing(job, ""), [Write(|content|)] + [Go]);
    Alone(c, files, procs, pid, Writing(job, ""), Write(|content|), files, Writing(job, content), [Go]);
    Alone(c, files, procs, pid, Writing(job, content), Go, after, RuntimeDone(r, i), []);
  }

  lemma RetryFindsIndex(c: Context, files: Files, procs: map<nat, Proc>, pid: nat, r: Receipt)
    requires c.Sound() && BoundIndex(c, files, r, IndexFor(c, r))
    ensures Run(c, State(files, procs[pid := CheckingIndex(r, IndexFor(c, r))]), Steps(pid, RetryTail(c, IndexFor(c, r), true)))
         == Some(State(files, procs[pid := RuntimeDone(r, IndexFor(c, r))]))
  {
    var i := IndexFor(c, r);
    assert Run(c, State(files, procs[pid := RuntimeDone(r, i)]), Steps(pid, [])) == Some(State(files, procs[pid := RuntimeDone(r, i)]));
    assert [Load(IndexDoc(i))] + [] == [Load(IndexDoc(i))];
    hide Run, Steps;
    Alone(c, files, procs, pid, CheckingIndex(r, i), Load(IndexDoc(i)), files, RuntimeDone(r, i), []);
  }

  lemma IndexInPlace(c: Context, files: Files, r: Receipt)
    requires c.Sound() && FilesInv(c, files) && BoundReceipt(c, files, r) && IndexPath in files
    ensures BoundIndex(c, files, r, IndexFor(c, r))
  {
    var other, i :| BoundIndex(c, files, other, i);
    assert ReceiptDoc(other) == ReceiptDoc(r);
  }

  /** Wherever an earlier verifier crashed after publishing its receipt, a retry that recomputes the
      same outcome completes the pair with that receipt, and leaves every other verifier as it was. */
  lemma RetryCompletes(c: Context, s: State, pid: nat, r: Receipt)
    requires c.Sound() && Inv(c, s) && BoundReceipt(c, s.files, r) && c.encode(IndexDoc(IndexFor(c, r))) != ""
    ensures var i := IndexFor(c, r);
            var end := Run(c, State(s.files, s.procs[pid := RuntimeStart]),
                           Steps(pid, RetryHead(r, RetryTail(c, i, IndexPath in s.files))));
            && end == Some(State(s.files[IndexPath := c.encode(IndexDoc(i))], s.procs[pid := RuntimeDone(r, i)]))
            && BoundIndex(c, end.value.files, r, i)
  {
    RetryFormsIndex(c, s.files, s.procs, pid, r, RetryTail(c, IndexFor(c, r), IndexPath in s.files));
    if IndexPath in s.files {
      IndexInPlace(c, s.files, r);
      RetryFindsIndex(c, s.files, s.procs, pid, r);
      assert s.files[IndexPath := c.encode(IndexDoc(IndexFor(c, r)))] == s.files;
    } else {
      RetryPublishesIndex(c, s.files, s.procs, pid, r);
    }
  }

  /** What the first runtime verifier does, alone in a fresh directory, until it has formed its index. */
  function FirstHead(c: Context, r: Receipt, tail: seq<Action>): seq<Action> {
    [Go] + ([Go] + ([Evaluate(r.outcome, r.verifiedAt)] + ([Write(|c.encode(ReceiptDoc(r))|)] + ([Go] + ([Go] + tail)))))
  }

  lemma FirstFormsIndex(c: Context, files: Files, procs: map<nat, Proc>, pid: nat, r: Receipt, tail: seq<Action>)
    requires ReceiptPath !in files && IndexPath !in files && RunIndexPath in files && files[RunIndexPath] == c.runIndexSource
    requires r.run == c.run && r.runIndexDigest == c.RunIndexDigest() && c.encode(ReceiptDoc(r)) != ""
    ensures Run(c, State(files, procs[pid := RuntimeStart]), Steps(pid, FirstHead(c, r, tail)))
         == Run(c, State(files[ReceiptPath := c.encode(ReceiptDoc(r))], procs[pid := CheckingIndex(r, IndexFor(c, r))]),
                Steps(pid, tail))
  {
    hide Run, Steps;
    var content := c.encode(ReceiptDoc(r));
    var job, after := PublishReceipt(r), files[ReceiptPath := content];
    assert "" + content[0..|content|] == content;
    var t4 := [Go] + ([Go] + tail);
    var t3 := [Write(|content|)] + t4;
    var t2 := [Evaluate(r.outcome, r.verifiedAt)] + t3;
    Alone(c, files, procs, pid, RuntimeStart, Go, files, SawIndex(false), [Go] + t2);
    Alone(c, files, procs, pid, SawIndex(false), Go, files, Evaluating(None), t2);
    Alone(c, files, procs, pid, Evaluating(None), Evaluate(r.outcome, r.verifiedAt), files, Writing(job, ""), t3);
    Alone(c, files, procs, pid, Writing(job, ""), Write(|content|), files, Writing(job, content), t4);
    Alone(c, files, procs, pid, Writing(job, content), Go, after, Referring(r), [Go] + tail);
    Alone(c, after, procs, pid, Referring(r), Go, after, CheckingIndex(r, IndexFor(c, r)), tail);
  }

  /** The first verifier, alone in a fresh directory, publishes the receipt of its own outcome and time and
      completes the pair. */
  lemma FirstCompletes(c: Context, pid: nat, outcome: nat, now: int)
    requires c.encode(ReceiptDoc(Receipt(c.run, c.RunIndexDigest(), now, outcome))) != ""
    requires c.encode(IndexDoc(IndexFor(c, Receipt(c.run, c.RunIndexDigest(), now, outcome)))) != ""
    ensures var r := Receipt(c.run, c.RunIndexDigest(), now, outcome);
            var i := IndexFor(c, r);
            Run(c, State(Initial(c).files, map[pid := RuntimeStart]), Steps(pid, FirstHead(c, r, RetryTail(c, i, false))))
            == Some(State(map[RunIndexPath := c.runIndexSource, ReceiptPath := c.encode(ReceiptDoc(r)),
                              IndexPath := c.encode(IndexDoc(i))], map[pid := RuntimeDone(r, i)]))
  {
    hide Run, Steps;
    var r := Receipt(c.run, c.RunIndexDigest(), now, outcome);
    var i := IndexFor(c, r);
    var procs: map<nat, Proc> := map[];
    FirstFormsIndex(c, Initial(c).files, procs, pid, r, RetryTail(c, i, false));
    var files := Initial(c).files[ReceiptPath := c.encode(ReceiptDoc(r))];
    RetryPublishesIndex(c, files, procs, pid, r);
    assert procs[pid := RuntimeStart] == map[pid := RuntimeStart];
    assert procs[pid := RuntimeDone(r, i)] == map[pid := RuntimeDone(r, i)];
  }

  // ----- Retries of the provenance verifier --------------------------------------------------------------

  /** What a new provenance verifier does, alone, until it publishes its acceptance; its inspection repeats the
      recorded facts, at a time when it runs not before the recorded one. */
  function AcceptanceHead(p: Provenance, r: Receipt, i: Index, archivedAt: int, now: int, found: Option<Acceptance>,
                          tail: seq<Action>): seq<Action>
  {
    [LoadPair(i, r)] + ([Inspect(p.facts, archivedAt, now, Some(p))] + ([Accept(found)] + ([Go] + tail)))
  }

  /** It then finds its acceptance in place, or writes and links it. */
  function AcceptanceTail(c: Context, a: Acceptance, published: bool): seq<Action> {
    if published then [Go] else [Go] + ([Write(|c.encode(AcceptanceDoc(a))|)] + [Go])
  }

  /** The provenance receipt in place names the one receipt and index in place. */
  lemma NamesPairInPlace(c: Context, files: Files, p: Provenance, r: Receipt, i: Index)
    requires c.Sound() && BoundProvenance(c, files, p) && BoundIndex(c, files, r, i)
    ensures p == Provenance(i.run, c.seal(IndexDoc(i)), c.seal(ReceiptDoc(r)), p.verifiedAt, p.facts)
    ensures i.run == r.run && i.runIndexDigest == r.runIndexDigest && i.receiptDigest == c.digest(files[ReceiptPath])
  {
    var r', i' :| BoundIndex(c, files, r', i') && p.run == c.run && p.indexSeal == c.seal(IndexDoc(i'))
                  && p.receiptSeal == c.seal(ReceiptDoc(r'));
    assert ReceiptDoc(r') == ReceiptDoc(r) && IndexDoc(i') == IndexDoc(i);
  }

  lemma AcceptanceInPlace(c: Context, files: Files, p: Provenance)
    requires c.Sound() && FilesInv(c, files) && BoundProvenance(c, files, p) && AcceptancePath in files
    ensures BoundAcceptance(c, files, p, AcceptanceFor(c, p))
  {
    var other, a :| BoundAcceptance(c, files, other, a);
    assert ProvenanceDoc(other) == ProvenanceDoc(p);
  }

  /** The acceptance that the directory shows, if any. */
  function FoundAcceptance(c: Context, files: Files, p: Provenance): Option<Acceptance> {
    if AcceptancePath in files then Some(AcceptanceFor(c, p)) else None
  }

  lemma RetryReads(c: Context, files: Files, p: Provenance, r: Receipt, i: Index, archivedAt: int, now: int)
    requires c.Sound() && FilesInv(c, files) && BoundProvenance(c, files, p) && BoundIndex(c, files, r, i)
    requires archivedAt <= p.verifiedAt <= now
    ensures Advance(c, files, ProvenanceStart, LoadPair(i, r)) == Some(Result(files, Inspecting(i, r)))
    ensures Advance(c, files, Inspecting(i, r), Inspect(p.facts, archivedAt, now, Some(p)))
         == Some(Result(files, Timed(p, Some(c.encode(ProvenanceDoc(p))))))
    ensures var job := PublishProvenance(p, AcceptanceFor(c, p));
            && Advance(c, files, Timed(p, Some(c.encode(ProvenanceDoc(p)))), Accept(FoundAcceptance(c, files, p)))
                 == Some(Result(files, CheckingTarget(job)))
            && Advance(c, files, CheckingTarget(job), Go)
                 == Some(Result(files, CheckingTarget(PublishAcceptance(p, AcceptanceFor(c, p)))))
  {
    hide FilesInv, NamesEvidence, Context.Sound;
    NamesPairInPlace(c, files, p, r, i);
    if AcceptancePath in files { AcceptanceInPlace(c, files, p); }
  }

  lemma RetryFormsAcceptance(c: Context, files: Files, procs: map<nat, Proc>, pid: nat, p: Provenance, r: Receipt, i: Index,
                             archivedAt: int, now: int, tail: seq<Action>)
    requires c.Sound() && FilesInv(c, files) && BoundProvenance(c, files, p) && BoundIndex(c, files, r, i)
    requires archivedAt <= p.verifiedAt <= now
    ensures Run(c, State(files, procs[pid := ProvenanceStart]),
                Steps(pid, AcceptanceHead(p, r, i, archivedAt, now, FoundAcceptance(c, files, p), tail)))
         == Run(c, State(files, procs[pid := CheckingTarget(PublishAcceptance(p, AcceptanceFor(c, p)))]), Steps(pid, tail))
  {
    hide Run, Steps, Advance, FilesInv, BoundProvenance, BoundIndex;
    RetryReads(c, files, p, r, i, archivedAt, now);
    var a := AcceptanceFor(c, p);
    var timed := Timed(p, Some(c.encode(ProvenanceDoc(p))));
    var found := FoundAcceptance(c, files, p);
    var t3 := [Accept(found)] + ([Go] + tail);
    var t2 := [Inspect(p.facts, archivedAt, now, Some(p))] + t3;
    Alone(c, files, procs, pid, ProvenanceStart, LoadPair(i, r), files, Inspecting(i, r), t2);
    Alone(c, files, procs, pid, Inspecting(i, r), Inspect(p.facts, archivedAt, now, Some(p)), files, timed, t3);
    Alone(c, files, procs, pid, timed, Accept(found), files, CheckingTarget(PublishProvenance(p, a)), [Go] + tail);
    Alone(c, files, procs, pid, CheckingTarget(PublishProvenance(p, a)), Go, files, CheckingTarget(PublishAcceptance(p, a)), tail);
  }

  lemma RetryPublishesAcceptance(c: Context, files: Files, procs: map<nat, Proc>, pid: nat, p: Provenance)
    requires AcceptancePath !in files && c.encode(AcceptanceDoc(AcceptanceFor(c, p))) != ""
    ensures Run(c, State(files, procs[pid := CheckingTarget(PublishAcceptance(p, AcceptanceFor(c, p)))]),
                Steps(pid, AcceptanceTail(c, AcceptanceFor(c, p), false)))
         == Some(State(files[AcceptancePath := c.encode(AcceptanceDoc(AcceptanceFor(c, p)))],
                       procs[pid := ProvenanceDone(p, AcceptanceFor(c, p))]))
  {
    var a := AcceptanceFor(c, p);
    var content := c.encode(AcceptanceDoc(a));
    var job, after := PublishAcceptance(p, a), files[AcceptancePath := content];
    assert "" + content[0..|content|] == content;
    assert Run(c, State(after, procs[pid := ProvenanceDone(p, a)]), Steps(pid, [])) == Some(State(after, procs[pid := ProvenanceDone(p, a)]));
    assert [Go] + [] == [Go];
    hide Run, Steps;
    Alone(c, files, procs, pid, CheckingTarget(job), Go, files, Writing(job, ""), [Write(|content|)] + [Go]);
    Alone(c, files, procs, pid, Writing(job, ""), Write(|content|), files, Writing(job, content), [Go]);
    Alone(c, files, procs, pid, Writing(job, content), Go, after, ProvenanceDone(p, a), []);
  }

  lemma RetryFindsAcceptance(c: Context, files: Files, procs: map<nat, Proc>, pid: nat, p: Provenance)
    requires BoundAcceptance(c, files, p, AcceptanceFor(c, p))
    ensures Run(c, State(files, procs[pid := CheckingTarget(PublishAcceptance(p, AcceptanceFor(c, p)))]),
                Steps(pid, AcceptanceTail(c, AcceptanceFor(c, p), true)))
         == Some(State(files, procs[pid := ProvenanceDone(p, AcceptanceFor(c, p))]))
  {
    var a := AcceptanceFor(c, p);
    assert Run(c, State(files, procs[pid := ProvenanceDone(p, a)]), Steps(pid, [])) == Some(State(files, procs[pid := ProvenanceDone(p, a)]));
    assert [Go] + [] == [Go];
    hide Run, Steps, NamesEvidence;
    Alone(c, files, procs, pid, CheckingTarget(PublishAcceptance(p, a)), Go, files, ProvenanceDone(p, a), []);
  }

  /** Wherever an earlier verifier crashed after publishing its provenance receipt, a retry that recomputes the
      same facts, with a clock that is not behind the recorded time and the same archive before it, completes
      the acceptance of that receipt, and leaves every other verifier as it was. */
  lemma RetryCompletesAcceptance(c: Context, s: State, pid: nat, p: Provenance, r: Receipt, i: Index, archivedAt: int, now: int)
    requires c.Sound() && Inv(c, s) && BoundProvenance(c, s.files, p) && BoundIndex(c, s.files, r, i)
    requires archivedAt <= p.verifiedAt <= now && c.encode(AcceptanceDoc(AcceptanceFor(c, p))) != ""
    ensures var a := AcceptanceFor(c, p);
            var end := Run(c, State(s.files, s.procs[pid := ProvenanceStart]),
                           Steps(pid, AcceptanceHead(p, r, i, archivedAt, now, FoundAcceptance(c, s.files, p),
                                                     AcceptanceTail(c, a, AcceptancePath in s.files))));
            && end == Some(State(s.files[AcceptancePath := c.encode(AcceptanceDoc(a))], s.procs[pid := ProvenanceDone(p, a)]))
            && BoundAcceptance(c, end.value.files, p, a)
  {
    hide Run, Steps, AcceptanceHead, AcceptanceTail, NamesEvidence, Context.Sound;
    var a := AcceptanceFor(c, p);
    RetryFormsAcceptance(c, s.files, s.procs, pid, p, r, i, archivedAt, now, AcceptanceTail(c, a, AcceptancePath in s.files));
    if AcceptancePath in s.files {
      AcceptanceInPlace(c, s.files, p);
      RetryFindsAcceptance(c, s.files, s.procs, pid, p);
      assert s.files[AcceptancePath := c.encode(AcceptanceDoc(a))] == s.files;
    } else {
      RetryPublishesAcceptance(c, s.files, s.procs, pid, p);
      AcceptanceJoins(c, s.files, p);
    }
  }

  lemma AcceptanceJoins(c: Context, files: Files, p: Provenance)
    requires BoundProvenance(c, files, p) && AcceptancePath !in files
    ensures BoundAcceptance(c, files[AcceptancePath := c.encode(AcceptanceDoc(AcceptanceFor(c, p)))], p, AcceptanceFor(c, p))
  {
    var after := files[AcceptancePath := c.encode(AcceptanceDoc(AcceptanceFor(c, p)))];
    assert Grows(files, after);
    EvidenceGrows(c, files, after, p);
  }
}
