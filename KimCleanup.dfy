/**
 * `removeKimBuilder`: the one-time removal of the services and daemon sets the old kim
 * builder left in the `kube-image` namespace. Each listing is one cluster API call whose
 * failure rejects the whole cleanup; each deletion is attempted on its own, and a failed
 * deletion is logged and passed over.
 */
module KimCleanup {
  import opened Wrappers

  /** The namespace the kim builder lived in. */
  const BuilderNamespace: string := "kube-image"

  /** The label selector that finds the kim builder's objects. */
  const KimSelector: string := "app.kubernetes.io/managed-by=kim"

  /** The part of a listed object's metadata the cleanup reads. */
  datatype ObjectMeta = ObjectMeta(name: Option<string>)

  /** A listed service or daemon set; its metadata may be absent. */
  datatype KubeObject = KubeObject(metadata: Option<ObjectMeta>)

  datatype Kind = Service | DaemonSet

  /** The cluster API calls the cleanup makes. */
  datatype ApiCall =
    | List(kind: Kind, namespace: string, labelSelector: string)
    | Delete(kind: Kind, name: string, namespace: string)

  /** How the promise `removeKimBuilder` returns settles. */
  datatype Outcome = Resolved | Rejected

  /**
   * `const { name } = item.metadata || {}` followed by `if (!name) continue`: the name to
   * delete, or `None` when the metadata or its name is missing or the name is empty.
   */
  function DeletableName(item: KubeObject): (name: Option<string>)
    ensures name.Some? ==> name.value != ""
    ensures name.Some? <==> item.metadata.Some? && item.metadata.value.name.Some? && item.metadata.value.name.value != ""
  {
    match item.metadata
    case None => None
    case Some(meta) => if meta.name == Some("") then None else meta.name
  }

  /** The deletions one loop attempts, in listing order: one per item with a name. */
  function DeleteCalls(kind: Kind, items: seq<KubeObject>): (calls: seq<ApiCall>)
    ensures |calls| <= |items|
    ensures forall k :: 0 <= k < |calls| ==> calls[k].Delete? && calls[k].kind == kind && calls[k].namespace == BuilderNamespace
  {
    if items == [] then []
    else
      var last := items[|items| - 1];
      DeleteCalls(kind, items[..|items| - 1]) +
      match DeletableName(last) case None => [] case Some(name) => [Delete(kind, name, BuilderNamespace)]
  }

  /** The word a log line uses for the kind of object whose deletion failed. */
  function KindWord(kind: Kind): string {
    if kind == Service then "service" else "daemon-set"
  }

  /** A failure log line up to the object's name: `Failed to delete <word> kube-image/`. */
  function FailurePrefix(word: string): string {
    "Failed to delete " + word + " " + BuilderNamespace + "/"
  }

  /** Chooses the log line for a failed deletion of the object of a given kind and name. */
  type MessageFor = (Kind, string) -> string

  /**
   * The line the daemon-set loop writes for a failed deletion, with the word fitting the kind:
   * the evidently intended message for both loops.
   */
  function FailureMessage(kind: Kind, name: string): string {
    FailurePrefix(KindWord(kind)) + name + ":"
  }

  /** The line both loops write as the code stands: "daemon-set" whatever the kind. */
  function FailureMessageAsWritten(kind: Kind, name: string): string {
    FailurePrefix("daemon-set") + name + ":"
  }

  /** What is logged for `calls`, given which deletions succeed: one `message` line per failed deletion, in order. */
  function FailureLog(calls: seq<ApiCall>, deleteSucceeds: (Kind, string) -> bool, message: MessageFor): (log: seq<string>)
    ensures |log| <= |calls|
  {
    if calls == [] then []
    else
      var last := calls[|calls| - 1];
      FailureLog(calls[..|calls| - 1], deleteSucceeds, message) +
      if last.Delete? && !deleteSucceeds(last.kind, last.name) then [message(last.kind, last.name)] else []
  }

  /**
   * The calls `removeKimBuilder` makes, given what the two listings return (`None`: the
   * listing rejected). The daemon sets are listed only once the services are dealt with.
   */
  function CleanupCalls(services: Option<seq<KubeObject>>, daemonSets: Option<seq<KubeObject>>): seq<ApiCall> {
    [List(Service, BuilderNamespace, KimSelector)] +
    match services
    case None => []
    case Some(serviceItems) =>
      DeleteCalls(Service, serviceItems) + [List(DaemonSet, BuilderNamespace, KimSelector)] +
      match daemonSets
      case None => []
      case Some(daemonSetItems) => DeleteCalls(DaemonSet, daemonSetItems)
  }

  /**
   * One `for` loop of `removeKimBuilder`: tries to delete every named item, whatever happened
   * before, and writes `message` for each deletion that fails.
   */
  method DeleteAll(kind: Kind, items: seq<KubeObject>, deleteSucceeds: (Kind, string) -> bool, message: MessageFor)
    returns (calls: seq<ApiCall>, log: seq<string>)
    ensures calls == DeleteCalls(kind, items)
    ensures log == FailureLog(calls, deleteSucceeds, message)
  {
    calls, log := [], [];
    for i := 0 to |items|
      invariant calls == DeleteCalls(kind, items[..i])
      invariant log == FailureLog(calls, deleteSucceeds, message)
    {
      DeleteCallsStep(kind, items, i);
      var name := DeletableName(items[i]);
      if name.None? {
        continue;
      }
      var call := Delete(kind, name.value, BuilderNamespace);
      FailureLogStep(calls, call, deleteSucceeds, message);
      calls := calls + [call];
      if !deleteSucceeds(kind, name.value) {
        log := log + [message(kind, name.value)];
      }
    }
    assert items[..|items|] == items;
  }

  lemma DeleteCallsStep(kind: Kind, items: seq<KubeObject>, i: nat)
    requires i < |items|
    ensures DeleteCalls(kind, items[..i + 1]) == DeleteCalls(kind, items[..i]) +
      match DeletableName(items[i]) case None => [] case Some(name) => [Delete(kind, name, BuilderNamespace)]
  {
    assert items[..i + 1][..i] == items[..i];
  }

  lemma FailureLogStep(calls: seq<ApiCall>, call: ApiCall, deleteSucceeds: (Kind, string) -> bool, message: MessageFor)
    ensures FailureLog(calls + [call], deleteSucceeds, message) == FailureLog(calls, deleteSucceeds, message) +
      if call.Delete? && !deleteSucceeds(call.kind, call.name) then [message(call.kind, call.name)] else []
  {
    assert (calls + [call])[..|calls|] == calls;
  }

  /**
   * `removeKimBuilder` as written, with the two listing results and the outcome of each
   * deletion as parameters. It returns the calls made, the failure log (both loops write the
   * "daemon-set" line) and how the returned promise settles.
   */
  method RemoveKimBuilder(services: Option<seq<KubeObject>>, daemonSets: Option<seq<KubeObject>>,
                          deleteSucceeds: (Kind, string) -> bool)
    returns (calls: seq<ApiCall>, log: seq<string>, outcome: Outcome)
    ensures calls == CleanupCalls(services, daemonSets)
    ensures log == FailureLog(calls, deleteSucceeds, FailureMessageAsWritten)
    ensures outcome == if services.Some? && daemonSets.Some? then Resolved else Rejected
  {
    var message: MessageFor := FailureMessageAsWritten;
    var listServices := List(Service, BuilderNamespace, KimSelector);
    calls, log := [listServices], [];
    assert log == FailureLog(calls, deleteSucceeds, message) by {
      FailureLogStep([], listServices, deleteSucceeds, message);
    }
    if services.None? {
      return calls, log, Rejected;
    }
    var serviceCalls, serviceLog := DeleteAll(Service, services.value, deleteSucceeds, message);
    var listDaemonSets := List(DaemonSet, BuilderNamespace, KimSelector);
    assert log + serviceLog == FailureLog(calls + serviceCalls + [listDaemonSets], deleteSucceeds, message) by {
      FailureLogConcat(calls, serviceCalls, deleteSucceeds, message);
      FailureLogStep(calls + serviceCalls, listDaemonSets, deleteSucceeds, message);
    }
    calls, log := calls + serviceCalls + [listDaemonSets], log + serviceLog;
    if daemonSets.None? {
      CleanupCallsShape(services.value, daemonSets);
      return calls, log, Rejected;
    }
    var daemonSetCalls, daemonSetLog := DeleteAll(DaemonSet, daemonSets.value, deleteSucceeds, message);
    assert log + daemonSetLog == FailureLog(calls + daemonSetCalls, deleteSucceeds, message) by {
      FailureLogConcat(calls, daemonSetCalls, deleteSucceeds, message);
    }
    calls, log := calls + daemonSetCalls, log + daemonSetLog;
    CleanupCallsShape(services.value, daemonSets);
    outcome := Resolved;
  }

  lemma CleanupCallsShape(serviceItems: seq<KubeObject>, daemonSets: Option<seq<KubeObject>>)
    ensures CleanupCalls(Some(serviceItems), daemonSets) ==
      [List(Service, BuilderNamespace, KimSelector)] + DeleteCalls(Service, serviceItems)
      + [List(DaemonSet, BuilderNamespace, KimSelector)]
      + (if daemonSets.None? then [] else DeleteCalls(DaemonSet, daemonSets.value))
  {
  }

  // ---------------------------------------------------------------------------
  // Properties

  lemma {:induction false} FailureLogConcat(a: seq<ApiCall>, b: seq<ApiCall>, deleteSucceeds: (Kind, string) -> bool,
                                            message: MessageFor)
    ensures FailureLog(a + b, deleteSucceeds, message) ==
            FailureLog(a, deleteSucceeds, message) + FailureLog(b, deleteSucceeds, message)
  {
    if b == [] {
      assert a + b == a;
    } else {
      FailureLogConcat(a, b[..|b| - 1], deleteSucceeds, message);
      assert (a + b)[..|a + b| - 1] == a + b[..|b| - 1];
    }
  }

  /** A deletion is attempted for a name exactly when some listed item carries that name; nameless items are skipped. */
  lemma {:induction false} DeleteCallsMembers(kind: Kind, items: seq<KubeObject>, name: string)
    ensures Delete(kind, name, BuilderNamespace) in DeleteCalls(kind, items) <==>
      exists item :: item in items && DeletableName(item) == Some(name)
  {
    if items != [] {
      var init, last := items[..|items| - 1], items[|items| - 1];
      assert items == init + [last];
      DeleteCallsMembers(kind, init, name);
      assert forall item :: item in items <==> item in init || item == last;
    }
  }

  /** Every item with a name costs one deletion attempt and every other item none. */
  lemma {:induction false} DeleteCallsCount(kind: Kind, items: seq<KubeObject>)
    ensures |DeleteCalls(kind, items)| == |NamedItems(items)|
  {
    if items != [] {
      DeleteCallsCount(kind, items[..|items| - 1]);
    }
  }

  /** The items of `items` that have a name, in order. */
  function NamedItems(items: seq<KubeObject>): seq<KubeObject> {
    if items == [] then []
    else NamedItems(items[..|items| - 1]) + if DeletableName(items[|items| - 1]).Some? then [items[|items| - 1]] else []
  }

  /**
   * With the intended message, a line is logged exactly for each attempted deletion that fails,
   * and the line tells which kind of object it was.
   */
  lemma {:induction false} FailureLogMembers(calls: seq<ApiCall>, deleteSucceeds: (Kind, string) -> bool, kind: Kind, name: string)
    requires forall k :: 0 <= k < |calls| && calls[k].Delete? ==> calls[k].namespace == BuilderNamespace
    ensures FailureMessage(kind, name) in FailureLog(calls, deleteSucceeds, FailureMessage) <==>
      Delete(kind, name, BuilderNamespace) in calls && !deleteSucceeds(kind, name)
  {
    if calls != [] {
      var init, last := calls[..|calls| - 1], calls[|calls| - 1];
      assert calls == init + [last];
      FailureLogMembers(init, deleteSucceeds, kind, name);
      if last.Delete? {
        FailureMessageIdentifies(kind, name, last.kind, last.name);
      }
    }
  }

  /**
   * As written, the one line "Failed to delete daemon-set kube-image/<name>:" is logged exactly
   * when the deletion of a service or of a daemon set named `name` was attempted and failed.
   */
  lemma {:induction false} FailureLogMembersAsWritten(calls: seq<ApiCall>, deleteSucceeds: (Kind, string) -> bool, name: string)
    requires forall k :: 0 <= k < |calls| && calls[k].Delete? ==> calls[k].namespace == BuilderNamespace
    ensures FailureMessageAsWritten(DaemonSet, name) in FailureLog(calls, deleteSucceeds, FailureMessageAsWritten) <==>
      || (Delete(Service, name, BuilderNamespace) in calls && !deleteSucceeds(Service, name))
      || (Delete(DaemonSet, name, BuilderNamespace) in calls && !deleteSucceeds(DaemonSet, name))
  {
    if calls != [] {
      var init, last := calls[..|calls| - 1], calls[|calls| - 1];
      assert calls == init + [last];
      FailureLogMembersAsWritten(init, deleteSucceeds, name);
      AsWrittenLastLine(init, last, deleteSucceeds, name);
      assert forall call :: call in calls <==> call in init || call == last;
      if last.Delete? {
        assert last.namespace == BuilderNamespace;
        assert last == Delete(last.kind, last.name, BuilderNamespace);
        if last.kind == Service {
          assert last == Delete(Service, last.name, BuilderNamespace);
        } else {
          assert last == Delete(DaemonSet, last.name, BuilderNamespace);
        }
      }
    }
  }

  /** The as-written line for `name` is among the lines of the last call iff that call is a failed deletion of `name`. */
  lemma AsWrittenLastLine(init: seq<ApiCall>, last: ApiCall, deleteSucceeds: (Kind, string) -> bool, name: string)
    ensures FailureMessageAsWritten(DaemonSet, name) in FailureLog(init + [last], deleteSucceeds, FailureMessageAsWritten) <==>
      || FailureMessageAsWritten(DaemonSet, name) in FailureLog(init, deleteSucceeds, FailureMessageAsWritten)
      || (last.Delete? && last.name == name && !deleteSucceeds(last.kind, name))
  {
    FailureLogStep(init, last, deleteSucceeds, FailureMessageAsWritten);
    if last.Delete? {
      FailureMessageAsWrittenNames(DaemonSet, name, last.kind, last.name);
    }
  }

  /** Once both listings succeed, every named service and every named daemon set gets a deletion attempt. */
  lemma CleanupAttemptsEveryNamedItem(services: seq<KubeObject>, daemonSets: seq<KubeObject>, name: string)
    ensures var calls := CleanupCalls(Some(services), Some(daemonSets));
      (exists item :: item in services && DeletableName(item) == Some(name)) ==>
        Delete(Service, name, BuilderNamespace) in calls
    ensures var calls := CleanupCalls(Some(services), Some(daemonSets));
      (exists item :: item in daemonSets && DeletableName(item) == Some(name)) ==>
        Delete(DaemonSet, name, BuilderNamespace) in calls
  {
    DeleteCallsMembers(Service, services, name);
    DeleteCallsMembers(DaemonSet, daemonSets, name);
  }

  /** A rejected service listing ends the cleanup before any deletion or the daemon-set listing. */
  lemma ServiceListingRejected(daemonSets: Option<seq<KubeObject>>)
    ensures CleanupCalls(None, daemonSets) == [List(Service, BuilderNamespace, KimSelector)]
  {
  }

  /** Different failures produce different intended log lines: the kind and the name can be read back. */
  lemma FailureMessageIdentifies(kind1: Kind, name1: string, kind2: Kind, name2: string)
    ensures FailureMessage(kind1, name1) == FailureMessage(kind2, name2) ==> kind1 == kind2 && name1 == name2
  {
    var m1, m2 := FailureMessage(kind1, name1), FailureMessage(kind2, name2);
    var p1, p2 := FailurePrefix(KindWord(kind1)), FailurePrefix(KindWord(kind2));
    assert p1[17] == (if kind1 == Service then 's' else 'd');
    assert p2[17] == (if kind2 == Service then 's' else 'd');
    if m1 == m2 {
      assert m1[17] == p1[17] && m2[17] == p2[17];
      assert p1 == p2;
      assert m1[|p1|..|m1| - 1] == name1 && m2[|p2|..|m2| - 1] == name2;
    }
  }

  /** As written, the log line carries the name and nothing else: it reads back the name but not the kind. */
  lemma FailureMessageAsWrittenNames(kind1: Kind, name1: string, kind2: Kind, name2: string)
    ensures FailureMessageAsWritten(kind1, name1) == FailureMessageAsWritten(kind2, name2) <==> name1 == name2
  {
    var m1, m2, p := FailureMessageAsWritten(kind1, name1), FailureMessageAsWritten(kind2, name2), FailurePrefix("daemon-set");
    if m1 == m2 {
      assert m1[|p|..|m1| - 1] == name1 && m2[|p|..|m2| - 1] == name2;
    }
  }

  /** As written, a failed service deletion is logged exactly like a failed daemon-set deletion of the same name. */
  lemma FailureMessageAsWrittenConfusesKinds(name: string)
    ensures FailureMessageAsWritten(Service, name) == FailureMessageAsWritten(DaemonSet, name)
    ensures FailureMessageAsWritten(Service, name) != FailureMessage(Service, name)
  {
    assert FailureMessageAsWritten(Service, name)[17] == 'd';
    assert FailureMessage(Service, name)[17] == 's';
  }

  /** The two services of `TwoServicesOneFails`. */
  function KimAndBuilder(): seq<KubeObject> {
    [KubeObject(Some(ObjectMeta(Some("kim")))), KubeObject(Some(ObjectMeta(Some("builder"))))]
  }

  /** The calls of `TwoServicesOneFails`: the service listing, two deletions, the daemon-set listing. */
  function KimAndBuilderCalls(): seq<ApiCall> {
    [List(Service, BuilderNamespace, KimSelector),
     Delete(Service, "kim", BuilderNamespace), Delete(Service, "builder", BuilderNamespace),
     List(DaemonSet, BuilderNamespace, KimSelector)]
  }

  lemma KimAndBuilderCleanupCalls()
    ensures CleanupCalls(Some(KimAndBuilder()), Some([])) == KimAndBuilderCalls()
  {
    var services := KimAndBuilder();
    assert services[..1] == [services[0]] && services[..1][..0] == [];
    CleanupCallsShape(services, Some([]));
  }

  lemma KimAndBuilderLog(deleteSucceeds: (Kind, string) -> bool)
    requires !deleteSucceeds(Service, "kim") && deleteSucceeds(Service, "builder")
    ensures FailureLog(KimAndBuilderCalls(), deleteSucceeds, FailureMessageAsWritten) == [FailureMessageAsWritten(Service, "kim")]
  {
    var calls := KimAndBuilderCalls();
    var message: MessageFor := FailureMessageAsWritten;
    FailureLogStep([], calls[0], deleteSucceeds, message);
    FailureLogStep(calls[..1], calls[1], deleteSucceeds, message);
    FailureLogStep(calls[..2], calls[2], deleteSucceeds, message);
    FailureLogStep(calls[..3], calls[3], deleteSucceeds, message);
    assert [] + [calls[0]] == calls[..1] && calls[..1] + [calls[1]] == calls[..2];
    assert calls[..2] + [calls[2]] == calls[..3] && calls[..3] + [calls[3]] == calls;
  }

  /** The text the service loop writes when the deletion of service "kim" fails. */
  lemma KimFailureLine()
    ensures FailureMessageAsWritten(Service, "kim") == "Failed to delete daemon-set kube-image/kim:"
  {
  }

  /**
   * Two services, the first of which cannot be deleted, and no daemon set: both deletions are
   * tried, the daemon sets are still listed, and the one line logged calls the service a daemon set.
   */
  lemma TwoServicesOneFails(deleteSucceeds: (Kind, string) -> bool)
    requires !deleteSucceeds(Service, "kim") && deleteSucceeds(Service, "builder")
    ensures var calls := CleanupCalls(Some(KimAndBuilder()), Some([]));
      calls == [List(Service, BuilderNamespace, KimSelector),
                Delete(Service, "kim", BuilderNamespace), Delete(Service, "builder", BuilderNamespace),
                List(DaemonSet, BuilderNamespace, KimSelector)]
      && FailureLog(calls, deleteSucceeds, FailureMessageAsWritten) == ["Failed to delete daemon-set kube-image/kim:"]
  {
    KimAndBuilderCleanupCalls();
    KimAndBuilderLog(deleteSucceeds);
    KimFailureLine();
  }
}
