/**
 * Model persistence of `lib/models/training.ts` (`serializeModel` and
 * `deserializeModel`). The JSON text itself is left out: a trained model
 * is written as a flat token stream that carries the same information as
 * its JSON document (the trees in pre-order, the feature names and the
 * metrics), and read back by a parser that rejects malformed streams.
 */
module Persistence {
  import opened Options
  import opened RandomForest
  import opened Training

  /** One token of a serialised model. */
  datatype Token =
    | LeafToken(value: real)
    | NodeToken(feature: nat, threshold: real)
    | CountToken(count: nat)
    | NameToken(name: nat)
    | MetricsToken(rmse: real, mape: real, rSquared: real)

  /** A tree in pre-order: a node's token, then its left and right subtrees. */
  function EncodeTree(t: Tree): (r: seq<Token>)
    ensures |r| > 0
  {
    match t
    case Leaf(v) => [LeafToken(v)]
    case Node(f, th, l, rt) => [NodeToken(f, th)] + EncodeTree(l) + EncodeTree(rt)
  }

  /** Read one tree off the front of `ts`, returning it with the tokens after it. */
  function DecodeTree(ts: seq<Token>): (r: Option<(Tree, seq<Token>)>)
    ensures r.Some? ==> |r.value.1| < |ts|
    ensures r.Some? ==> EncodeTree(r.value.0) + r.value.1 == ts
    decreases |ts|
  {
    if |ts| == 0 then None
    else
      match ts[0]
      case LeafToken(v) => Some((Leaf(v), ts[1..]))
      case NodeToken(f, th) =>
        (match DecodeTree(ts[1..])
         case None => None
         case Some((l, rest)) =>
           match DecodeTree(rest)
           case None => None
           case Some((rt, rest')) =>
             assert ts == [ts[0]] + ts[1..];
             Some((Node(f, th, l, rt), rest')))
      case _ => None
  }

  /** Reading a tree back from its encoding gives the tree, and leaves whatever followed untouched. */
  lemma {:induction false} TreeRoundTrip(t: Tree, rest: seq<Token>)
    ensures DecodeTree(EncodeTree(t) + rest) == Some((t, rest))
  {
    match t
    case Leaf(v) =>
      assert (EncodeTree(t) + rest)[1..] == rest;
    case Node(f, th, l, rt) =>
      var ts := EncodeTree(t) + rest;
      assert ts[1..] == EncodeTree(l) + (EncodeTree(rt) + rest);
      TreeRoundTrip(l, EncodeTree(rt) + rest);
      TreeRoundTrip(rt, rest);
  }

  /** The trees one after another. */
  function EncodeTrees(trees: seq<Tree>): seq<Token>
  {
    if |trees| == 0 then [] else EncodeTree(trees[0]) + EncodeTrees(trees[1..])
  }

  /** Read `count` trees off the front of `ts`. */
  function DecodeTrees(ts: seq<Token>, count: nat): (r: Option<(seq<Tree>, seq<Token>)>)
    ensures r.Some? ==> |r.value.0| == count && EncodeTrees(r.value.0) + r.value.1 == ts
    decreases count
  {
    if count == 0 then Some(([], ts))
    else
      match DecodeTree(ts)
      case None => None
      case Some((t, rest)) =>
        match DecodeTrees(rest, count - 1)
        case None => None
        case Some((more, rest')) =>
          assert ([t] + more)[1..] == more;
          Some(([t] + more, rest'))
  }

  lemma {:induction false} TreesRoundTrip(trees: seq<Tree>, rest: seq<Token>)
    ensures DecodeTrees(EncodeTrees(trees) + rest, |trees|) == Some((trees, rest))
  {
    if |trees| > 0 {
      assert EncodeTrees(trees) + rest == EncodeTree(trees[0]) + (EncodeTrees(trees[1..]) + rest);
      TreeRoundTrip(trees[0], EncodeTrees(trees[1..]) + rest);
      TreesRoundTrip(trees[1..], rest);
      assert [trees[0]] + trees[1..] == trees;
    } else {
      assert EncodeTrees(trees) + rest == rest;
    }
  }

  /** The feature names, one token each. */
  function EncodeNames(names: seq<nat>): (r: seq<Token>)
    ensures |r| == |names| && forall i :: 0 <= i < |r| ==> r[i] == NameToken(names[i])
  {
    seq(|names|, i requires 0 <= i < |names| => NameToken(names[i]))
  }

  /** Read `count` feature names off the front of `ts`. */
  function DecodeNames(ts: seq<Token>, count: nat): (r: Option<(seq<nat>, seq<Token>)>)
    ensures r.Some? ==> |r.value.0| == count && EncodeNames(r.value.0) + r.value.1 == ts
    decreases count
  {
    if count == 0 then Some(([], ts))
    else if |ts| == 0 || !ts[0].NameToken? then None
    else
      match DecodeNames(ts[1..], count - 1)
      case None => None
      case Some((more, rest)) =>
        assert EncodeNames([ts[0].name] + more) == [ts[0]] + EncodeNames(more);
        Some(([ts[0].name] + more, rest))
  }

  lemma {:induction false} NamesRoundTrip(names: seq<nat>, rest: seq<Token>)
    ensures DecodeNames(EncodeNames(names) + rest, |names|) == Some((names, rest))
  {
    if |names| > 0 {
      var ts := EncodeNames(names) + rest;
      assert ts[1..] == EncodeNames(names[1..]) + rest;
      NamesRoundTrip(names[1..], rest);
      assert [names[0]] + names[1..] == names;
    } else {
      assert EncodeNames(names) + rest == rest;
    }
  }

  /**
   * `serializeModel`: the number of trees, the trees, the number of
   * feature names, the names, and the metrics.
   */
  function SerializeModel(m: TrainedModel): (r: seq<Token>)
    ensures |r| >= 3
  {
    [CountToken(|m.model.trees|)] + EncodeTrees(m.model.trees)
    + [CountToken(|m.model.featureNames|)] + EncodeNames(m.model.featureNames)
    + [MetricsToken(m.metrics.rmse, m.metrics.mape, m.metrics.rSquared)]
  }

  /** `deserializeModel`: the model a token stream describes, or `None` when it describes none. */
  function DeserializeModel(ts: seq<Token>): (r: Option<TrainedModel>)
    ensures r.Some? ==> SerializeModel(r.value) == ts
  {
    if |ts| == 0 || !ts[0].CountToken? then None
    else
      match DecodeTrees(ts[1..], ts[0].count)
      case None => None
      case Some((trees, rest)) =>
        if |rest| == 0 || !rest[0].CountToken? then None
        else
          match DecodeNames(rest[1..], rest[0].count)
          case None => None
          case Some((names, tail)) =>
            if |tail| != 1 || !tail[0].MetricsToken? then None
            else
              var mt := tail[0];
              ReassembleModel(ts, trees, rest, names, tail);
              Some(TrainedModel(RandomForestModel(trees, names), ModelMetrics(mt.rmse, mt.mape, mt.rSquared)))
  }

  /** The pieces a successful parse finds, put back together, are the stream it parsed. */
  lemma ReassembleModel(ts: seq<Token>, trees: seq<Tree>, rest: seq<Token>, names: seq<nat>, tail: seq<Token>)
    requires |ts| > 0 && ts[0] == CountToken(|trees|) && EncodeTrees(trees) + rest == ts[1..]
    requires |rest| > 0 && rest[0] == CountToken(|names|) && EncodeNames(names) + tail == rest[1..]
    requires |tail| == 1 && tail[0].MetricsToken?
    ensures SerializeModel(TrainedModel(RandomForestModel(trees, names),
                                        ModelMetrics(tail[0].rmse, tail[0].mape, tail[0].rSquared))) == ts
  {
    assert ts == [ts[0]] + ts[1..];
    assert rest == [rest[0]] + rest[1..];
    assert tail == [MetricsToken(tail[0].rmse, tail[0].mape, tail[0].rSquared)];
  }

  /** Deserialising a serialised model gives back the same trees, feature names and metrics. */
  lemma ModelRoundTrip(m: TrainedModel)
    ensures DeserializeModel(SerializeModel(m)) == Some(m)
  {
    var trees, names := m.model.trees, m.model.featureNames;
    var metrics := [MetricsToken(m.metrics.rmse, m.metrics.mape, m.metrics.rSquared)];
    var ts := SerializeModel(m);
    var afterTrees := [CountToken(|names|)] + EncodeNames(names) + metrics;
    assert ts[1..] == EncodeTrees(trees) + afterTrees;
    TreesRoundTrip(trees, afterTrees);
    assert afterTrees[1..] == EncodeNames(names) + metrics;
    NamesRoundTrip(names, metrics);
  }

  /** Two models with the same serialisation are the same model. */
  lemma SerializeInjective(m1: TrainedModel, m2: TrainedModel)
    requires SerializeModel(m1) == SerializeModel(m2)
    ensures m1 == m2
  {
    ModelRoundTrip(m1);
    ModelRoundTrip(m2);
  }
}
