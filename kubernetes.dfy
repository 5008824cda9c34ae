/**
 * The Kubernetes metadata reader (`get_kubernetes_metadata`): it scans a
 * fixed allowlist of environment variables, reports each one that is set to a
 * non-empty value under its human-readable label, and always adds the
 * "In Kubernetes" presence field, derived from whether the service-account
 * secrets directory exists. The environment and the existence check are inputs.
 */
module Kubernetes {
  import opened Values

  /** One allowlist entry: an environment variable and the label it is reported under. */
  datatype Watched = Watched(variable: string, display: string)

  /** The allowlist, in the order the reader visits it. */
  const WatchedVariables: seq<Watched> := [
    Watched("KUBERNETES_SERVICE_HOST", "Kubernetes Service Host"),
    Watched("KUBERNETES_SERVICE_PORT", "Kubernetes Service Port"),
    Watched("HOSTNAME", "Pod Hostname"),
    Watched("POD_NAME", "Pod Name"),
    Watched("POD_NAMESPACE", "Pod Namespace"),
    Watched("POD_IP", "Pod IP"),
    Watched("NODE_NAME", "Node Name"),
    Watched("SERVICE_ACCOUNT", "Service Account")
  ]

  const WatchedLabels: set<string> := set i | 0 <= i < |WatchedVariables| :: WatchedVariables[i].display

  const PresenceLabel: string := "In Kubernetes"

  /**
   * The service-account secrets directory the reader checks for. It is kept for
   * the reader's benefit only: the model receives the answer of `os.path.exists`
   * on it as the input `secretsMounted` (see `SystemInfo.HostFacts`).
   */
  const SecretsPath: string := "/var/run/secrets/kubernetes.io"

  /** `os.environ.get(variable)` is truthy: the variable is set and not empty. */
  predicate IsSet(env: map<string, string>, variable: string)
  {
    variable in env && env[variable] != ""
  }

  function Presence(secretsMounted: bool): string
  {
    if secretsMounted then "Yes" else "No"
  }

  /**
   * What the reader promises about its dictionary: the presence field is there
   * with the right answer; each allowlisted label is there exactly when its
   * variable is set, and then holds the variable's value; and there is nothing else.
   */
  ghost predicate Describes(env: map<string, string>, secretsMounted: bool, facts: map<string, string>)
  {
    && PresenceLabel in facts
    && facts[PresenceLabel] == Presence(secretsMounted)
    && (forall i :: 0 <= i < |WatchedVariables| ==>
          (WatchedVariables[i].display in facts <==> IsSet(env, WatchedVariables[i].variable)))
    && (forall i :: 0 <= i < |WatchedVariables| && WatchedVariables[i].display in facts ==>
          facts[WatchedVariables[i].display] == env[WatchedVariables[i].variable])
    && facts.Keys <= WatchedLabels + {PresenceLabel}
  }

  /** No two entries of `vars` share a label. */
  ghost predicate DistinctDisplays(vars: seq<Watched>)
  {
    forall i, j :: 0 <= i < j < |vars| ==> vars[i].display != vars[j].display
  }

  /** No two allowlist entries share a label, and none is labelled like the presence field. */
  lemma LabelsDistinct()
    ensures DistinctDisplays(WatchedVariables)
    ensures forall i :: 0 <= i < |WatchedVariables| ==> WatchedVariables[i].display != PresenceLabel
  {
    var W := WatchedVariables;
    assert W[0].display[19] == 'H' && W[1].display[19] == 'P';
    assert W[4].display[0] == 'P' && PresenceLabel[0] == 'I';
  }

  /** The labelled entries the allowlist loop has collected after visiting `vars`. */
  function Collect(env: map<string, string>, vars: seq<Watched>): map<string, string>
    decreases |vars|
  {
    if vars == [] then map[]
    else
      var w := vars[|vars| - 1];
      var before := Collect(env, vars[..|vars| - 1]);
      if IsSet(env, w.variable) then before[w.display := env[w.variable]] else before
  }

  /** The dictionary the reader builds: the collected entries and the presence field. */
  function KubernetesFacts(env: map<string, string>, secretsMounted: bool): map<string, string>
  {
    Collect(env, WatchedVariables)[PresenceLabel := Presence(secretsMounted)]
  }

  /**
   * The reader itself. It returns `None` when the dictionary it built is empty;
   * the contract shows that this never happens.
   */
  method KubernetesMetadata(env: map<string, string>, secretsMounted: bool)
    returns (r: Option<map<string, string>>)
    ensures r == Some(KubernetesFacts(env, secretsMounted))
  {
    var info: map<string, string> := map[];
    for i := 0 to |WatchedVariables|
      invariant info == Collect(env, WatchedVariables[..i])
    {
      var w := WatchedVariables[i];
      var value := if w.variable in env then Some(env[w.variable]) else None;
      if value.Some? && value.value != "" {
        info := info[w.display := value.value];
      }
      assert WatchedVariables[..i + 1][..i] == WatchedVariables[..i];
    }
    assert WatchedVariables[..|WatchedVariables|] == WatchedVariables;
    info := info[PresenceLabel := Presence(secretsMounted)];
    assert PresenceLabel in info;
    r := if info == map[] then None else Some(info);
  }

  /** With distinct labels, each entry of `vars` is collected exactly when its variable is set, with its value. */
  lemma {:induction false} CollectAt(env: map<string, string>, vars: seq<Watched>, i: nat)
    requires DistinctDisplays(vars) && i < |vars|
    ensures vars[i].display in Collect(env, vars) <==> IsSet(env, vars[i].variable)
    ensures vars[i].display in Collect(env, vars) ==> Collect(env, vars)[vars[i].display] == env[vars[i].variable]
    decreases |vars|
  {
    var pre := vars[..|vars| - 1];
    if i < |vars| - 1 {
      assert pre[i] == vars[i];
      assert DistinctDisplays(pre);
      CollectAt(env, pre, i);
    } else {
      CollectKeys(env, pre);
    }
  }

  /** Only the labels of `vars` are ever collected. */
  lemma {:induction false} CollectKeys(env: map<string, string>, vars: seq<Watched>)
    ensures forall k :: k in Collect(env, vars) ==> exists i :: 0 <= i < |vars| && vars[i].display == k
    decreases |vars|
  {
    if vars != [] {
      var pre := vars[..|vars| - 1];
      CollectKeys(env, pre);
      forall k | k in Collect(env, vars) ensures exists i :: 0 <= i < |vars| && vars[i].display == k {
        if k in Collect(env, pre) {
          var i :| 0 <= i < |pre| && pre[i].display == k;
          assert vars[i] == pre[i];
        } else {
          assert vars[|vars| - 1].display == k;
        }
      }
    }
  }

  /** The reader's dictionary meets its contract: the presence field, each label exactly when set, nothing else. */
  lemma KubernetesFactsDescribed(env: map<string, string>, secretsMounted: bool)
    ensures Describes(env, secretsMounted, KubernetesFacts(env, secretsMounted))
  {
    var W := WatchedVariables;
    var collected := Collect(env, W);
    LabelsDistinct();
    CollectKeys(env, W);
    forall i | 0 <= i < |W|
      ensures W[i].display in collected <==> IsSet(env, W[i].variable)
      ensures W[i].display in collected ==> collected[W[i].display] == env[W[i].variable]
    {
      CollectAt(env, W, i);
    }
    forall k | k in collected ensures k in WatchedLabels {
      var i :| 0 <= i < |W| && W[i].display == k;
    }
  }

  /** The dictionary is never empty, so the reader's `None` branch is unreachable. */
  lemma KubernetesFactsNeverEmpty(env: map<string, string>, secretsMounted: bool)
    ensures KubernetesFacts(env, secretsMounted) != map[]
    ensures |KubernetesFacts(env, secretsMounted)| >= 1
  {
    assert PresenceLabel in KubernetesFacts(env, secretsMounted);
  }

  /** The contract pins the dictionary down completely: two that meet it are equal. */
  lemma DescribesUnique(env: map<string, string>, secretsMounted: bool, f1: map<string, string>, f2: map<string, string>)
    requires Describes(env, secretsMounted, f1) && Describes(env, secretsMounted, f2)
    ensures f1 == f2
  {
    forall k | k in f1 ensures k in f2 && f1[k] == f2[k] {
      if k != PresenceLabel {
        var i :| 0 <= i < |WatchedVariables| && WatchedVariables[i].display == k;
      }
    }
    forall k | k in f2 ensures k in f1 {
      if k != PresenceLabel {
        var i :| 0 <= i < |WatchedVariables| && WatchedVariables[i].display == k;
      }
    }
  }

  /**
   * With only POD_NAME=worker-1 and POD_NAMESPACE=default in the environment and
   * no secrets directory, the metadata is exactly those two labels and "In Kubernetes": "No".
   */
  lemma PodOnlyScenario()
    ensures KubernetesFacts(map["POD_NAME" := "worker-1", "POD_NAMESPACE" := "default"], false)
            == map["Pod Name" := "worker-1", "Pod Namespace" := "default", "In Kubernetes" := "No"]
  {
    var env := map["POD_NAME" := "worker-1", "POD_NAMESPACE" := "default"];
    var expected := map["Pod Name" := "worker-1", "Pod Namespace" := "default", "In Kubernetes" := "No"];
    PodOnlyExpected(env, expected);
    KubernetesFactsDescribed(env, false);
    DescribesUnique(env, false, KubernetesFacts(env, false), expected);
  }

  lemma PodOnlyExpected(env: map<string, string>, expected: map<string, string>)
    requires env == map["POD_NAME" := "worker-1", "POD_NAMESPACE" := "default"]
    requires expected == map["Pod Name" := "worker-1", "Pod Namespace" := "default", "In Kubernetes" := "No"]
    ensures Describes(env, false, expected)
  {
    var W := WatchedVariables;
    assert "HOSTNAME"[0] != "POD_NAME"[0];
    forall i | 0 <= i < |W|
      ensures W[i].display in expected <==> IsSet(env, W[i].variable)
      ensures W[i].display in expected ==> expected[W[i].display] == env[W[i].variable]
    {
    }
    assert expected.Keys == {W[3].display, W[4].display, PresenceLabel};
  }
}
