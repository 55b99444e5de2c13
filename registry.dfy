/**
 * The Vertex AI Matching Engine state that app/retriever/upsert_vector.py
 * reads and changes: the project's indexes, its index endpoints with the
 * indexes deployed on them, and the datapoints stored in each index.
 * `_ensure_index` and `_ensure_endpoint` reuse a resource whose display
 * name matches (the first one listed) or create one.
 */
module VectorRegistry {
  import opened Wrappers
  import opened Collections

  const IndexDisplayName: string := "agentops-mock-index"
  const EndpointDisplayName: string := "agentops-mock-endpoint"
  const EndpointDescription: string := "AgentOps mock endpoint"
  /** Every deployment run_upsert makes uses this one id. */
  const DeployedIndexId: string := "agentops_deployed"

  /** The parameters of a Tree-AH index. */
  datatype IndexConfig = TreeAh(
    dimensions: nat,
    distanceMeasure: string,
    leafNodeEmbeddingCount: nat,
    leafNodesToSearchPercent: nat,
    approximateNeighborsCount: nat,
    description: string)

  /** The index _ensure_index creates: 3072 dimensions, cosine distance, 1000 embeddings per leaf, 7% of leaves searched, 10 approximate neighbours. */
  const DemoIndexConfig: IndexConfig := TreeAh(3072, "COSINE_DISTANCE", 1000, 7, 10, "AgentOps mock Tree-AH index")

  datatype Index = Index(displayName: string, resourceName: string, config: IndexConfig)

  /** An index deployed on an endpoint: the index's resource name and the deployment's id. */
  datatype Deployment = Deployment(index: string, deployedIndexId: string)

  datatype Endpoint = Endpoint(displayName: string, resourceName: string, publicEndpoint: bool, description: string, deployed: seq<Deployment>)

  /** What Matching Engine raises: no index with that resource name, or the deployment id is already taken on the endpoint. */
  datatype RegistryError = IndexNotFound(name: string) | DeployConflict(deployedIndexId: string)

  /** A datapoint to upsert: its id, its feature vector, no restricts and no crowding tag. */
  datatype Datapoint<V> = Datapoint(datapointId: string, featureVector: V, restricts: seq<string>, crowdingTag: Option<string>)

  predicate IsDemoIndex(ix: Index) {
    ix.displayName == IndexDisplayName
  }

  predicate IsDemoEndpoint(ep: Endpoint) {
    ep.displayName == EndpointDisplayName
  }

  /** `any(d.index == index_name for d in endpoint.deployed_indexes)`. */
  predicate IsDeployed(ep: Endpoint, indexName: string) {
    exists d :: d in ep.deployed && d.index == indexName
  }

  /** Matching Engine refuses a second deployment with the same id on one endpoint. */
  predicate IdTaken(ep: Endpoint, deployedId: string) {
    exists d :: d in ep.deployed && d.deployedIndexId == deployedId
  }

  predicate IndexExists(indexes: seq<Index>, name: string) {
    exists k :: 0 <= k < |indexes| && indexes[k].resourceName == name
  }

  /** The index list after _ensure_index, and the resource name it returns; a created index gets the supplied name. */
  function EnsureIndexSpec(indexes: seq<Index>, newName: string): (seq<Index>, string) {
    match FirstWith(indexes, IsDemoIndex)
    case Some(k) => (indexes, indexes[k].resourceName)
    case None => (indexes + [Index(IndexDisplayName, newName, DemoIndexConfig)], newName)
  }

  /** The first index named "agentops-mock-index" is reused and nothing is created. */
  lemma EnsureIndexReusesFirstMatch(indexes: seq<Index>, newName: string, k: nat)
    requires k < |indexes| && IsDemoIndex(indexes[k])
    requires forall j :: 0 <= j < k ==> !IsDemoIndex(indexes[j])
    ensures EnsureIndexSpec(indexes, newName) == (indexes, indexes[k].resourceName)
  {
    FirstWithAt(indexes, IsDemoIndex, k);
  }

  /** With no index of that name, exactly one is created, with the demo parameters, and its name returned. */
  lemma EnsureIndexCreatesOne(indexes: seq<Index>, newName: string)
    requires forall j :: 0 <= j < |indexes| ==> !IsDemoIndex(indexes[j])
    ensures |EnsureIndexSpec(indexes, newName).0| == |indexes| + 1
    ensures EnsureIndexSpec(indexes, newName).0[..|indexes|] == indexes
    ensures EnsureIndexSpec(indexes, newName).0[|indexes|] == Index(IndexDisplayName, newName, DemoIndexConfig)
    ensures EnsureIndexSpec(indexes, newName).1 == newName
  {
  }

  /** A second _ensure_index returns the same resource name and creates nothing. */
  lemma EnsureIndexIdempotent(indexes: seq<Index>, newName1: string, newName2: string)
    ensures var (after, name) := EnsureIndexSpec(indexes, newName1);
            EnsureIndexSpec(after, newName2) == (after, name)
  {
    match FirstWith(indexes, IsDemoIndex)
    case Some(k) =>
      FirstWithAt(indexes, IsDemoIndex, k);
    case None =>
      var after := indexes + [Index(IndexDisplayName, newName1, DemoIndexConfig)];
      FirstWithAt(after, IsDemoIndex, |indexes|);
  }

  function DemoEndpoint(newName: string): Endpoint {
    Endpoint(EndpointDisplayName, newName, true, EndpointDescription, [])
  }

  /** The endpoint list after the reuse-or-create step of _ensure_endpoint, and the position of the chosen endpoint. */
  function ChooseEndpoint(endpoints: seq<Endpoint>, newName: string): (r: (seq<Endpoint>, nat))
    ensures r.1 < |r.0|
  {
    match FirstWith(endpoints, IsDemoEndpoint)
    case Some(k) => (endpoints, k)
    case None => (endpoints + [DemoEndpoint(newName)], |endpoints|)
  }

  /**
   * The endpoint list after _ensure_endpoint(indexName), and what it returns.
   * The index is deployed only when the chosen endpoint has no deployment of
   * it, always under the id "agentops_deployed"; an error leaves a created
   * endpoint in place and deploys nothing.
   */
  function EnsureEndpointSpec(indexes: seq<Index>, endpoints: seq<Endpoint>, indexName: string, newName: string)
    : (seq<Endpoint>, Result<string, RegistryError>)
  {
    var (eps, p) := ChooseEndpoint(endpoints, newName);
    var ep := eps[p];
    if IsDeployed(ep, indexName) then (eps, Ok(ep.resourceName))
    else if !IndexExists(indexes, indexName) then (eps, Err(IndexNotFound(indexName)))
    else if IdTaken(ep, DeployedIndexId) then (eps, Err(DeployConflict(DeployedIndexId)))
    else (eps[p := ep.(deployed := ep.deployed + [Deployment(indexName, DeployedIndexId)])], Ok(ep.resourceName))
  }

  /**
   * The endpoint chosen is the first one named "agentops-mock-endpoint"; the
   * list is left as it is when there is one, and only when there is none is
   * one public endpoint with no deployments appended and chosen.
   */
  lemma ChooseEndpointChoice(endpoints: seq<Endpoint>, newName: string)
    ensures var (eps, p) := ChooseEndpoint(endpoints, newName);
            && IsDemoEndpoint(eps[p])
            && (forall j :: 0 <= j < p ==> !IsDemoEndpoint(eps[j]))
            && ((exists j :: 0 <= j < |endpoints| && IsDemoEndpoint(endpoints[j])) ==> eps == endpoints)
            && ((forall j :: 0 <= j < |endpoints| ==> !IsDemoEndpoint(endpoints[j])) ==>
                  eps == endpoints + [DemoEndpoint(newName)] && p == |endpoints|)
  {
    match FirstWith(endpoints, IsDemoEndpoint)
    case Some(k) =>
    case None =>
  }

  /**
   * With no endpoint of that name, exactly one public endpoint is created
   * and the index is deployed on it once, under "agentops_deployed".
   */
  lemma EnsureEndpointCreatesAndDeploys(indexes: seq<Index>, endpoints: seq<Endpoint>, indexName: string, newName: string)
    requires forall j :: 0 <= j < |endpoints| ==> !IsDemoEndpoint(endpoints[j])
    requires IndexExists(indexes, indexName)
    ensures EnsureEndpointSpec(indexes, endpoints, indexName, newName)
            == (endpoints + [DemoEndpoint(newName).(deployed := [Deployment(indexName, DeployedIndexId)])], Ok(newName))
  {
    ChooseEndpointChoice(endpoints, newName);
    var eps := endpoints + [DemoEndpoint(newName)];
    var ep := eps[|endpoints|];
    assert ep == DemoEndpoint(newName);
    assert !IsDeployed(ep, indexName);
    assert !IdTaken(ep, DeployedIndexId);
    var d := Deployment(indexName, DeployedIndexId);
    assert ep.deployed + [d] == [d];
    var created := DemoEndpoint(newName).(deployed := [d]);
    assert ep.(deployed := ep.deployed + [d]) == created;
    assert eps[|endpoints| := created] == endpoints + [created];
    assert eps[|endpoints| := ep.(deployed := ep.deployed + [Deployment(indexName, DeployedIndexId)])]
           == endpoints + [DemoEndpoint(newName).(deployed := [Deployment(indexName, DeployedIndexId)])];
  }

  /**
   * On the reused endpoint, an index not yet deployed there is deployed
   * once, under "agentops_deployed", and nothing else changes.
   */
  lemma EnsureEndpointDeploysOnReused(indexes: seq<Index>, endpoints: seq<Endpoint>, indexName: string, newName: string, k: nat)
    requires k < |endpoints| && IsDemoEndpoint(endpoints[k])
    requires forall j :: 0 <= j < k ==> !IsDemoEndpoint(endpoints[j])
    requires !IsDeployed(endpoints[k], indexName) && IndexExists(indexes, indexName)
    requires !IdTaken(endpoints[k], DeployedIndexId)
    ensures EnsureEndpointSpec(indexes, endpoints, indexName, newName)
            == (endpoints[k := endpoints[k].(deployed := endpoints[k].deployed + [Deployment(indexName, DeployedIndexId)])],
                Ok(endpoints[k].resourceName))
  {
    FirstWithAt(endpoints, IsDemoEndpoint, k);
  }

  /** The first endpoint named "agentops-mock-endpoint" is the one used. */
  lemma EnsureEndpointUsesFirstMatch(indexes: seq<Index>, endpoints: seq<Endpoint>, indexName: string, newName: string, k: nat)
    requires k < |endpoints| && IsDemoEndpoint(endpoints[k])
    requires forall j :: 0 <= j < k ==> !IsDemoEndpoint(endpoints[j])
    ensures var (eps, r) := EnsureEndpointSpec(indexes, endpoints, indexName, newName);
            && |eps| == |endpoints|
            && (forall j :: 0 <= j < |endpoints| && j != k ==> eps[j] == endpoints[j])
            && (r.Ok? ==> r.value == endpoints[k].resourceName)
  {
    FirstWithAt(endpoints, IsDemoEndpoint, k);
  }

  /** An index already deployed on the chosen endpoint is not deployed again: nothing changes. */
  lemma EnsureEndpointAlreadyDeployed(indexes: seq<Index>, endpoints: seq<Endpoint>, indexName: string, newName: string, k: nat)
    requires k < |endpoints| && IsDemoEndpoint(endpoints[k])
    requires forall j :: 0 <= j < k ==> !IsDemoEndpoint(endpoints[j])
    requires IsDeployed(endpoints[k], indexName)
    ensures EnsureEndpointSpec(indexes, endpoints, indexName, newName) == (endpoints, Ok(endpoints[k].resourceName))
  {
    FirstWithAt(endpoints, IsDemoEndpoint, k);
  }

  /**
   * The deployment id is fixed and there is no retry: when the chosen
   * endpoint already holds "agentops_deployed" for another index, the call
   * fails and deploys nothing.
   */
  lemma EnsureEndpointConflict(indexes: seq<Index>, endpoints: seq<Endpoint>, indexName: string, newName: string, k: nat)
    requires k < |endpoints| && IsDemoEndpoint(endpoints[k])
    requires forall j :: 0 <= j < k ==> !IsDemoEndpoint(endpoints[j])
    requires !IsDeployed(endpoints[k], indexName) && IndexExists(indexes, indexName)
    requires IdTaken(endpoints[k], DeployedIndexId)
    ensures EnsureEndpointSpec(indexes, endpoints, indexName, newName) == (endpoints, Err(DeployConflict(DeployedIndexId)))
  {
    FirstWithAt(endpoints, IsDemoEndpoint, k);
  }

  /**
   * After a successful _ensure_endpoint the returned endpoint has the index
   * deployed, and a second call returns the same endpoint and changes nothing:
   * re-running never adds a second deployment.
   */
  lemma EnsureEndpointIdempotent(indexes: seq<Index>, endpoints: seq<Endpoint>, indexName: string, newName1: string, newName2: string)
    requires EnsureEndpointSpec(indexes, endpoints, indexName, newName1).1.Ok?
    ensures var (eps, r) := EnsureEndpointSpec(indexes, endpoints, indexName, newName1);
            EnsureEndpointSpec(indexes, eps, indexName, newName2) == (eps, r)
  {
    var (eps0, p) := ChooseEndpoint(endpoints, newName1);
    var (eps, r) := EnsureEndpointSpec(indexes, endpoints, indexName, newName1);
    assert IsDemoEndpoint(eps0[p]) by {
      match FirstWith(endpoints, IsDemoEndpoint)
      case Some(k) =>
      case None =>
    }
    assert forall j :: 0 <= j < p ==> !IsDemoEndpoint(eps0[j]) by {
      match FirstWith(endpoints, IsDemoEndpoint)
      case Some(k) =>
      case None =>
    }
    assert |eps| == |eps0| && eps[p].displayName == eps0[p].displayName;
    assert forall j :: 0 <= j < |eps| && j != p ==> eps[j] == eps0[j];
    FirstWithAt(eps, IsDemoEndpoint, p);
    assert IsDeployed(eps[p], indexName) by {
      if !IsDeployed(eps0[p], indexName) {
        var d := Deployment(indexName, DeployedIndexId);
        assert d in eps[p].deployed;
      }
    }
  }

  /** The Matching Engine state one run of run_upsert works against; V is the opaque feature-vector type. */
  class Registry<V> {
    var indexes: seq<Index>
    var endpoints: seq<Endpoint>
    /** Index resource name to the datapoints stored in it, by datapoint id. */
    var datapoints: map<string, map<string, V>>

    constructor(indexes0: seq<Index>, endpoints0: seq<Endpoint>, datapoints0: map<string, map<string, V>>)
      ensures indexes == indexes0 && endpoints == endpoints0 && datapoints == datapoints0
    {
      indexes := indexes0;
      endpoints := endpoints0;
      datapoints := datapoints0;
    }

    /** The datapoints stored in the named index. */
    function Stored(indexName: string): map<string, V>
      reads this
    {
      if indexName in datapoints then datapoints[indexName] else map[]
    }

    /** _ensure_index: scan the listed indexes, return the first match, otherwise create one named `newName`. */
    method EnsureIndex(newName: string) returns (name: string)
      modifies this
      ensures (indexes, name) == EnsureIndexSpec(old(indexes), newName)
      ensures endpoints == old(endpoints) && datapoints == old(datapoints)
    {
      var i := 0;
      while i < |indexes|
        invariant 0 <= i <= |indexes|
        invariant forall j :: 0 <= j < i ==> !IsDemoIndex(indexes[j])
      {
        if indexes[i].displayName == IndexDisplayName {
          FirstWithAt(indexes, IsDemoIndex, i);
          return indexes[i].resourceName;
        }
        i := i + 1;
      }
      indexes := indexes + [Index(IndexDisplayName, newName, DemoIndexConfig)];
      name := newName;
    }

    /** _ensure_endpoint(indexName): reuse or create the endpoint, then deploy the index unless it already is. */
    method EnsureEndpoint(indexName: string, newName: string) returns (r: Result<string, RegistryError>)
      modifies this
      ensures (endpoints, r) == EnsureEndpointSpec(indexes, old(endpoints), indexName, newName)
      ensures indexes == old(indexes) && datapoints == old(datapoints)
    {
      var p := 0;
      while p < |endpoints| && endpoints[p].displayName != EndpointDisplayName
        invariant 0 <= p <= |endpoints|
        invariant forall j :: 0 <= j < p ==> !IsDemoEndpoint(endpoints[j])
      {
        p := p + 1;
      }
      if p == |endpoints| {
        endpoints := endpoints + [DemoEndpoint(newName)];
      } else {
        FirstWithAt(endpoints, IsDemoEndpoint, p);
      }
      assert (endpoints, p) == ChooseEndpoint(old(endpoints), newName);
      var ep := endpoints[p];
      if IsDeployed(ep, indexName) {
        return Ok(ep.resourceName);
      }
      if !IndexExists(indexes, indexName) {
        return Err(IndexNotFound(indexName));
      }
      if IdTaken(ep, DeployedIndexId) {
        return Err(DeployConflict(DeployedIndexId));
      }
      endpoints := endpoints[p := ep.(deployed := ep.deployed + [Deployment(indexName, DeployedIndexId)])];
      r := Ok(ep.resourceName);
    }

    /** index.upsert_datapoints(dps): each datapoint is stored under its id, replacing an earlier one with that id. */
    method UpsertDatapoints(indexName: string, dps: seq<Datapoint<V>>) returns (r: Result<(), RegistryError>)
      modifies this
      ensures !IndexExists(indexes, indexName) ==> r == Err(IndexNotFound(indexName)) && datapoints == old(datapoints)
      ensures IndexExists(indexes, indexName) ==>
                r.Ok? && datapoints == old(datapoints)[indexName := old(Stored(indexName)) + IndexBy(dps, DatapointId, FeatureVector)]
      ensures indexes == old(indexes) && endpoints == old(endpoints)
    {
      if !IndexExists(indexes, indexName) {
        return Err(IndexNotFound(indexName));
      }
      datapoints := datapoints[indexName := Stored(indexName) + IndexBy(dps, DatapointId, FeatureVector)];
      r := Ok(());
    }
  }

  function DatapointId<V>(dp: Datapoint<V>): string {
    dp.datapointId
  }

  function FeatureVector<V>(dp: Datapoint<V>): V {
    dp.featureVector
  }
}
