/** The published target list and the JSON value it is written as.  The
    document is a list of target groups; the service always writes one group
    holding every target and the job label.  The text `json.dumps` renders
    from the JSON value is not modelled: a JSON value stands for it. */
module Document {
  import opened Wrappers
  import opened Config

  /** A JSON value; object members keep their order, as a Python dict does. */
  datatype Json =
    | JNull
    | JBool(b: bool)
    | JInt(n: int)
    | JString(s: string)
    | JArray(items: seq<Json>)
    | JObject(members: seq<(string, Json)>)

  /** One entry of the document: the targets and their labels. */
  datatype TargetGroup = TargetGroup(targets: seq<string>, labels: seq<(string, Value)>)

  type Document = seq<TargetGroup>

  const TargetsField := "targets"
  const LabelsField := "labels"
  const JobLabel := "job"

  /** The document `write_configmap` assembles: a single group whose labels
      are exactly the job.  Serialized, it is the list
      `[{"targets": [...], "labels": {"job": job}}]`. */
  function BuildDocument(targets: seq<string>, job: Value): (r: Document)
    ensures ToJson(r) == JArray([JObject([(TargetsField, JArray(StringsToJson(targets))),
                                          (LabelsField, JObject([(JobLabel, ValueToJson(job))]))])])
  {
    var labels := [(JobLabel, job)];
    assert labels[1..] == [];
    assert LabelsToJson(labels) == [(JobLabel, ValueToJson(job))];
    [TargetGroup(targets, labels)]
  }

  function ValueToJson(v: Value): Json {
    match v
    case Text(s) => JString(s)
    case Int(n) => JInt(n)
    case Bool(b) => JBool(b)
    case Null => JNull
  }

  function StringsToJson(ts: seq<string>): (r: seq<Json>)
    ensures |r| == |ts|
    ensures forall i :: 0 <= i < |ts| ==> r[i] == JString(ts[i])
  {
    if |ts| == 0 then [] else [JString(ts[0])] + StringsToJson(ts[1..])
  }

  function LabelsToJson(ls: seq<(string, Value)>): (r: seq<(string, Json)>)
    ensures |r| == |ls|
  {
    if |ls| == 0 then [] else [(ls[0].0, ValueToJson(ls[0].1))] + LabelsToJson(ls[1..])
  }

  /** A group as an object with `targets` first and `labels` second. */
  function GroupToJson(g: TargetGroup): Json {
    JObject([(TargetsField, JArray(StringsToJson(g.targets))), (LabelsField, JObject(LabelsToJson(g.labels)))])
  }

  function GroupsToJson(gs: Document): (r: seq<Json>)
    ensures |r| == |gs|
    ensures forall i :: 0 <= i < |gs| ==> r[i] == GroupToJson(gs[i])
  {
    if |gs| == 0 then [] else [GroupToJson(gs[0])] + GroupsToJson(gs[1..])
  }

  /** The JSON value the document is serialized from: a list with one
      object per group, each holding the group's targets as strings under
      `targets` and then its labels under `labels`. */
  function ToJson(doc: Document): (r: Json)
    ensures r.JArray? && |r.items| == |doc|
    ensures forall i :: 0 <= i < |doc| ==>
              && r.items[i].JObject? && |r.items[i].members| == 2
              && r.items[i].members[0].0 == TargetsField
              && r.items[i].members[0].1 == JArray(seq(|doc[i].targets|, k requires 0 <= k < |doc[i].targets| => JString(doc[i].targets[k])))
              && r.items[i].members[1].0 == LabelsField
              && r.items[i].members[1].1.JObject?
              && |r.items[i].members[1].1.members| == |doc[i].labels|
  {
    var items := GroupsToJson(doc);
    assert forall i :: 0 <= i < |doc| ==>
             StringsToJson(doc[i].targets)
               == seq(|doc[i].targets|, k requires 0 <= k < |doc[i].targets| => JString(doc[i].targets[k]));
    JArray(items)
  }

  // Reading a document back, as a consumer of the published list does.

  function ValueOf(j: Json): Option<Value> {
    match j
    case JString(s) => Some(Text(s))
    case JInt(n) => Some(Int(n))
    case JBool(b) => Some(Bool(b))
    case JNull => Some(Null)
    case _ => None
  }

  function StringsOf(js: seq<Json>): (r: Option<seq<string>>)
    ensures r.Some? ==> |r.value| == |js|
  {
    if |js| == 0 then Some([])
    else if !js[0].JString? then None
    else
      var rest :- StringsOf(js[1..]);
      Some([js[0].s] + rest)
  }

  function LabelsOf(ms: seq<(string, Json)>): (r: Option<seq<(string, Value)>>)
    ensures r.Some? ==> |r.value| == |ms|
  {
    if |ms| == 0 then Some([])
    else
      var v :- ValueOf(ms[0].1);
      var rest :- LabelsOf(ms[1..]);
      Some([(ms[0].0, v)] + rest)
  }

  function GroupOf(j: Json): Option<TargetGroup> {
    if !j.JObject? || |j.members| != 2 then None
    else
      var (k0, v0) := j.members[0];
      var (k1, v1) := j.members[1];
      if k0 != TargetsField || k1 != LabelsField || !v0.JArray? || !v1.JObject? then None
      else
        var ts :- StringsOf(v0.items);
        var ls :- LabelsOf(v1.members);
        Some(TargetGroup(ts, ls))
  }

  function GroupsOf(js: seq<Json>): (r: Option<Document>)
    ensures r.Some? ==> |r.value| == |js|
  {
    if |js| == 0 then Some([])
    else
      var g :- GroupOf(js[0]);
      var rest :- GroupsOf(js[1..]);
      Some([g] + rest)
  }

  /** The document a JSON value holds, if it has the document's shape. */
  function FromJson(j: Json): Option<Document> {
    if j.JArray? then GroupsOf(j.items) else None
  }

  lemma {:induction false} StringsRoundTrip(ts: seq<string>)
    ensures StringsOf(StringsToJson(ts)) == Some(ts)
    decreases |ts|
  {
    if |ts| > 0 {
      var js := StringsToJson(ts);
      assert js[1..] == StringsToJson(ts[1..]);
      StringsRoundTrip(ts[1..]);
      assert ts == [ts[0]] + ts[1..];
    }
  }

  lemma {:induction false} LabelsRoundTrip(ls: seq<(string, Value)>)
    ensures LabelsOf(LabelsToJson(ls)) == Some(ls)
    decreases |ls|
  {
    if |ls| > 0 {
      var ms := LabelsToJson(ls);
      assert ms[1..] == LabelsToJson(ls[1..]);
      LabelsRoundTrip(ls[1..]);
      assert ValueOf(ValueToJson(ls[0].1)) == Some(ls[0].1);
      assert ls == [ls[0]] + ls[1..];
    }
  }

  lemma {:induction false} GroupsRoundTrip(gs: Document)
    ensures GroupsOf(GroupsToJson(gs)) == Some(gs)
    decreases |gs|
  {
    if |gs| > 0 {
      var js := GroupsToJson(gs);
      assert js[1..] == GroupsToJson(gs[1..]);
      GroupsRoundTrip(gs[1..]);
      StringsRoundTrip(gs[0].targets);
      LabelsRoundTrip(gs[0].labels);
      assert gs == [gs[0]] + gs[1..];
    }
  }

  /** Reading back what was serialized gives the same document. */
  lemma DocumentRoundTrip(doc: Document)
    ensures FromJson(ToJson(doc)) == Some(doc)
  {
    GroupsRoundTrip(doc);
  }

  lemma {:induction false} StringsExact(js: seq<Json>)
    requires StringsOf(js).Some?
    ensures StringsToJson(StringsOf(js).value) == js
    decreases |js|
  {
    if |js| > 0 {
      StringsExact(js[1..]);
      var ts := StringsOf(js).value;
      assert ts[1..] == StringsOf(js[1..]).value;
      assert js == [js[0]] + js[1..];
    }
  }

  lemma ValueExact(j: Json)
    requires ValueOf(j).Some?
    ensures ValueToJson(ValueOf(j).value) == j
  {
  }

  lemma {:induction false} LabelsExact(ms: seq<(string, Json)>)
    requires LabelsOf(ms).Some?
    ensures LabelsToJson(LabelsOf(ms).value) == ms
    decreases |ms|
  {
    if |ms| > 0 {
      LabelsExact(ms[1..]);
      ValueExact(ms[0].1);
      var ls := LabelsOf(ms).value;
      assert ls[1..] == LabelsOf(ms[1..]).value;
      assert ms == [ms[0]] + ms[1..];
    }
  }

  lemma {:induction false} GroupsExact(js: seq<Json>)
    requires GroupsOf(js).Some?
    ensures GroupsToJson(GroupsOf(js).value) == js
    decreases |js|
  {
    if |js| > 0 {
      GroupsExact(js[1..]);
      var j := js[0];
      StringsExact(j.members[0].1.items);
      LabelsExact(j.members[1].1.members);
      assert j.members == [j.members[0], j.members[1]];
      var gs := GroupsOf(js).value;
      assert gs[1..] == GroupsOf(js[1..]).value;
      assert js == [js[0]] + js[1..];
    }
  }

  /** A JSON value that reads as a document is exactly that document's
      serialization: reading loses nothing and accepts no other layout. */
  lemma FromJsonExact(j: Json)
    requires FromJson(j).Some?
    ensures ToJson(FromJson(j).value) == j
  {
    GroupsExact(j.items);
  }
}
