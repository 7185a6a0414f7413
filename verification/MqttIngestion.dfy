/** The MQTT adapter: topics name nodes, payloads are decoded section lists, and a per-node counter stands in
    for the frame id the wire format does not carry. */
module MqttIngestion {
  import opened IntMath
  import opened SatellitePipeline
  import opened TelemetryFrame
  import opened TelemetryWire
  import opened Wrappers

  // ----- Topics

  /** The text up to the first slash, and whether there is one. */
  function UpToSlash(s: string): (r: (string, bool))
    ensures '/' !in r.0 && r.0 <= s
    ensures r.1 <==> '/' in s
    ensures r.1 ==> |r.0| < |s| && s[|r.0|] == '/'
    ensures !r.1 ==> r.0 == s
  {
    if s == "" then ("", false)
    else if s[0] == '/' then ("", true)
    else
      var (rest, found) := UpToSlash(s[1..]);
      ([s[0]] + rest, found)
  }

  /** The second slash-separated field; a topic without a slash has none. */
  function NodeId(topic: string): (r: Option<string>)
    ensures r.Some? <==> '/' in topic
  {
    var (first, found) := UpToSlash(topic);
    if found then Some(UpToSlash(topic[|first| + 1..]).0) else None
  }

  lemma {:induction false} UpToSlashIs(s: string, field: string)
    requires '/' !in field && field <= s && (|field| == |s| || s[|field|] == '/')
    ensures UpToSlash(s) == (field, |field| < |s|)
    decreases |s|
  {
    if field != "" {
      UpToSlashIs(s[1..], field[1..]);
      assert field == [field[0]] + field[1..];
    }
  }

  /** The field `id` stands behind the first slash and before the next one, if any. */
  predicate SecondField(topic: string, at: int, id: string) {
    && 0 <= at < |topic| && topic[at] == '/' && '/' !in topic[..at]
    && '/' !in id && id <= topic[at + 1..] && (at + 1 + |id| == |topic| || topic[at + 1 + |id|] == '/')
  }

  /** A topic's node id is its second slash-separated field. */
  lemma NodeIdIsSecondField(topic: string, id: string)
    ensures NodeId(topic) == Some(id) <==> exists at :: SecondField(topic, at, id)
  {
    var (first, found) := UpToSlash(topic);
    if found {
      assert topic[..|first|] == first;
      assert NodeId(topic) == Some(id) ==> SecondField(topic, |first|, id);
    }
    forall at | SecondField(topic, at, id) ensures NodeId(topic) == Some(id) {
      UpToSlashIs(topic, topic[..at]);
      UpToSlashIs(topic[at + 1..], id);
    }
  }

  lemma {:induction false} UpToSlashOfField(field: string, tail: string)
    requires '/' !in field
    ensures UpToSlash(field + "/" + tail) == (field, true)
    decreases |field|
  {
    var s := field + "/" + tail;
    if field == "" {
      assert s == "/" + tail;
    } else {
      UpToSlashOfField(field[1..], tail);
      assert s[1..] == field[1..] + "/" + tail;
      assert field == [field[0]] + field[1..];
    }
  }

  /** The topic a satellite publishes on gives back its node id. */
  lemma TopicNamesNode(node: string)
    requires '/' !in node
    ensures NodeId("epm" + "/" + node + "/" + "data") == Some(node)
  {
    var topic := "epm" + "/" + node + "/" + "data";
    assert topic == "epm" + "/" + (node + "/" + "data");
    UpToSlashOfField("epm", node + "/" + "data");
    UpToSlashOfField(node, "data");
    assert topic[4..] == node + "/" + "data";
  }

  // ----- From a decoded frame to a pipeline frame

  const RMS_MIC: U16 := 25
  const KURTOSIS_MIC: U16 := 26
  const CREST_FACTOR_MIC: U16 := 29
  const CREST_FACTOR_X: U16 := 11
  const CREST_FACTOR_Y: U16 := 17
  const CREST_FACTOR_Z: U16 := 23

  /** What the gateway computes outside this model: the number a wire float stands for, and the high-band
      energy share of a spectrum. */
  datatype Numerics = Numerics(value: Float32 -> real, highBand: seq<Float32> -> real)

  function ScalarOr(num: Numerics, d: DecodedFrame, id: U16, default: real): real {
    if id in d.scalars then num.value(d.scalars[id]) else default
  }

  /** The values of the given scalars that the frame carries. */
  function Present(num: Numerics, d: DecodedFrame, ids: seq<U16>): seq<real> {
    if ids == [] then []
    else (if ids[0] in d.scalars then [num.value(d.scalars[ids[0]])] else []) + Present(num, d, ids[1..])
  }

  function Largest(xs: seq<real>): (m: real)
    requires xs != []
    ensures m in xs && forall x :: x in xs ==> x <= m
  {
    if |xs| == 1 then xs[0] else
      var m := Largest(xs[1..]);
      assert xs == [xs[0]] + xs[1..];
      if xs[0] >= m then xs[0] else m
  }

  /** The worst axis' crest factor, zero when the frame carries none. */
  function ImuCrest(num: Numerics, d: DecodedFrame): real {
    var axes := Present(num, d, [CREST_FACTOR_X, CREST_FACTOR_Y, CREST_FACTOR_Z]);
    if axes == [] then 0.0 else Largest(axes)
  }

  /** What the parts outside this model report while a message is processed. */
  datatype Report = Report(extra: seq<B.Score>, hst: bool, drift: bool)

  function ToFrame(num: Numerics, d: DecodedFrame, id: nat, r: Report): Frame {
    var spectrum := if "mic" in d.bins then d.bins["mic"] else [];
    Frame(id, ScalarOr(num, d, KURTOSIS_MIC, 0.0), ScalarOr(num, d, CREST_FACTOR_MIC, 0.0), ScalarOr(num, d, RMS_MIC, 0.0),
          ImuCrest(num, d), num.highBand(spectrum), r.extra, r.hst, r.drift)
  }

  // ----- Messages and nodes

  datatype Message = Message(topic: string, payload: seq<Byte>, report: Report)

  /** A node's frame counter and the pipeline state of its satellite. */
  datatype Node = Node(counter: nat, state: State)

  /** The fixed surroundings: configuration, numerics, and what registering a node finds in storage. */
  datatype Gateway = Gateway(config: Config, num: Numerics, registered: string -> Baselines)

  function Registered(g: Gateway, id: string): State { Initial(g.registered(id)) }

  /** A message the adapter hands on: its node and what it decodes to. */
  function Readable(m: Message): Option<(string, DecodedFrame)> {
    if NodeId(m.topic).None? then None
    else
      var d := Decode(m.payload);
      if d.Malformed? then None else Some((NodeId(m.topic).value, d.value))
  }

  function Receive(g: Gateway, nodes: map<string, Node>, m: Message): map<string, Node>
    requires g.config.Valid()
  {
    var readable := Readable(m);
    if readable.None? then nodes
    else
      var (id, d) := readable.value;
      var node := if id in nodes then nodes[id] else Node(0, Registered(g, id));
      nodes[id := Node(node.counter + 1, Step(g.config, node.state, ToFrame(g.num, d, node.counter + 1, m.report)))]
  }

  function ReceiveAll(g: Gateway, ms: seq<Message>): map<string, Node>
    requires g.config.Valid()
    decreases |ms|
  {
    if ms == [] then map[] else Receive(g, ReceiveAll(g, ms[..|ms| - 1]), ms[|ms| - 1])
  }

  /** A node's own decodable messages, in order, numbered from 1. */
  function FramesOf(num: Numerics, ms: seq<Message>, id: string): (frames: seq<Frame>)
    ensures |frames| <= |ms|
    ensures forall i :: 0 <= i < |frames| ==> frames[i].id == i + 1
    decreases |ms|
  {
    if ms == [] then [] else
      var prefix, m := FramesOf(num, ms[..|ms| - 1], id), ms[|ms| - 1];
      var readable := Readable(m);
      if readable.Some? && readable.value.0 == id
      then prefix + [ToFrame(num, readable.value.1, |prefix| + 1, m.report)]
      else prefix
  }

  /** Over every interleaving of nodes, malformed topics and malformed payloads, a node's state is the
      pipeline run over its own decodable messages alone, numbered 1, 2, 3, ...; a node is known exactly
      when it has sent one. */
  lemma {:induction false} NodesAreIndependent(g: Gateway, ms: seq<Message>, id: string)
    requires g.config.Valid()
    ensures var frames, nodes := FramesOf(g.num, ms, id), ReceiveAll(g, ms);
            && (id in nodes <==> frames != [])
            && (id in nodes ==> nodes[id] == Node(|frames|, Run(g.config, Registered(g, id), frames)))
    decreases |ms|
  {
    hide Readable, ToFrame, Step, Config.Valid;
    if ms != [] {
      var prefix, m := ms[..|ms| - 1], ms[|ms| - 1];
      NodesAreIndependent(g, prefix, id);
      var readable := Readable(m);
      if readable.Some? && readable.value.0 == id {
        var frames := FramesOf(g.num, prefix, id);
        var f := ToFrame(g.num, readable.value.1, |frames| + 1, m.report);
        assert (frames + [f])[..|frames|] == frames;
      }
    }
  }

  /** None of a node's frames is rejected as a replay. */
  lemma NoFrameIsRejected(g: Gateway, ms: seq<Message>, id: string, i: nat)
    requires g.config.Valid()
    requires i < |FramesOf(g.num, ms, id)|
    ensures AcceptedAt(g.config, Registered(g, id), FramesOf(g.num, ms, id), i)
  {
    hide FramesOf, Run;
    GateAcceptsRunningMaxima(g.config, Registered(g, id), FramesOf(g.num, ms, id), i);
  }

  /** So every message a node gets through appears in its history, and its last id is its message count. */
  lemma {:induction false} EveryFrameIsProcessed(c: Config, s: State, frames: seq<Frame>)
    requires c.Valid()
    requires s.lastId == -1 && forall i :: 0 <= i < |frames| ==> frames[i].id == i + 1
    ensures |History(c, s, frames)| == |frames|
    ensures Run(c, s, frames).lastId == if frames == [] then -1 else |frames|
    ensures forall i :: 0 <= i < |frames| ==> History(c, s, frames)[i].frame == frames[i]
    decreases |frames|
  {
    hide Decided, Resets, ObserveFrame, ClearedAll, Raw, CalibrationAfter, Config.Valid;
    if frames != [] {
      EveryFrameIsProcessed(c, s, frames[..|frames| - 1]);
    }
  }

  // ----- The ingestor object

  class MqttIngestor {
    const gateway: Gateway
    var nodes: map<string, Node>

    constructor (gateway: Gateway)
      requires gateway.config.Valid()
      ensures this.gateway == gateway && nodes == ReceiveAll(gateway, [])
    {
      this.gateway := gateway;
      nodes := map[];
    }

    method OnMessage(m: Message)
      requires gateway.config.Valid()
      modifies this
      ensures nodes == Receive(gateway, old(nodes), m)
      ensures Readable(m).None? ==> nodes == old(nodes)
      ensures Readable(m).Some? ==> forall id :: id in old(nodes) && id != Readable(m).value.0 ==> id in nodes && nodes[id] == old(nodes[id])
    {
      hide Step, ToFrame, Config.Valid;
      var nodeId := NodeId(m.topic);
      if nodeId.None? {
        return;
      }
      var id := nodeId.value;
      var decoded := DecodeFrame(m.payload);
      if decoded.Malformed? {
        return;
      }
      if id !in nodes {
        nodes := nodes[id := Node(0, Registered(gateway, id))];
      }
      var node := nodes[id];
      var counter := node.counter + 1;
      var frame := ToFrame(gateway.num, decoded.value, counter, m.report);
      nodes := nodes[id := Node(counter, node.state)];
      if !Replayed(node.state, frame) {
        nodes := nodes[id := Node(counter, Step(gateway.config, node.state, frame))];
      } else {
        ReplayChangesNothing(gateway.config, node.state, frame);
      }
    }
  }
}
