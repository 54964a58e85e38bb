/**
  Novelty scores: how many (trial, peer) pairs a label's values are news to.
 */
module NoveltyScores {
  import opened Common
  import opened SetComparison

  /** Members of `t` within `vs` that label `c` never reached. */
  ghost function News(sets: map<string, TrialSets>, vs: set<string>, t: set<string>, c: string): nat {
    |t * vs - Seen(sets, c)|
  }

  ghost function NewsToPeers(sets: map<string, TrialSets>, vs: set<string>, t: set<string>, labels: seq<string>): nat {
    if labels == [] then 0 else News(sets, vs, t, labels[0]) + NewsToPeers(sets, vs, t, labels[1..])
  }

  ghost function TotalNews(sets: map<string, TrialSets>, vs: set<string>, trials: seq<set<string>>,
                           labels: seq<string>): nat
  {
    if trials == [] then 0 else NewsToPeers(sets, vs, trials[0], labels) + TotalNews(sets, vs, trials[1..], labels)
  }

  /** How many of the labels never reached `v`. */
  ghost function Strangers(sets: map<string, TrialSets>, v: string, labels: seq<string>): nat {
    if labels == [] then 0 else (if v in Seen(sets, labels[0]) then 0 else 1) + Strangers(sets, v, labels[1..])
  }

  lemma NewsOfOneMore(vs: set<string>, v: string, t: set<string>, c: set<string>)
    requires v !in vs
    ensures |t * (vs + {v}) - c| == |t * vs - c| + if v in t && v !in c then 1 else 0
  {
    assert t * (vs + {v}) - c == (t * vs - c) + if v in t && v !in c then {v} else {};
  }

  lemma {:induction false} NewsGrow(sets: map<string, TrialSets>, vs: set<string>, v: string, t: set<string>,
                                    labels: seq<string>)
    requires v !in vs
    ensures NewsToPeers(sets, vs + {v}, t, labels)
         == NewsToPeers(sets, vs, t, labels) + if v in t then Strangers(sets, v, labels) else 0
  {
    if labels != [] {
      NewsOfOneMore(vs, v, t, Seen(sets, labels[0]));
      NewsGrow(sets, vs, v, t, labels[1..]);
    }
  }

  /** `n` for every trial that holds `v`. */
  ghost function PerTrial(trials: seq<set<string>>, v: string, n: nat): nat {
    if trials == [] then 0 else (if v in trials[0] then n else 0) + PerTrial(trials[1..], v, n)
  }

  lemma {:induction false} PerTrialIsProduct(trials: seq<set<string>>, v: string, n: nat, o: nat)
    requires o == Occurrences(trials, v)
    ensures PerTrial(trials, v, n) == n * o
  {
    if trials != [] {
      var first := if v in trials[0] then 1 else 0;
      PerTrialIsProduct(trials[1..], v, n, o - first);
      Distribute(n, first, o - first);
    }
  }

  lemma Distribute(n: int, a: int, b: int)
    ensures n * (a + b) == n * a + n * b
  {}

  lemma {:induction false} TotalGrow(sets: map<string, TrialSets>, vs: set<string>, v: string,
                                     trials: seq<set<string>>, labels: seq<string>)
    requires v !in vs
    ensures TotalNews(sets, vs + {v}, trials, labels)
         == TotalNews(sets, vs, trials, labels) + PerTrial(trials, v, Strangers(sets, v, labels))
  {
    if trials != [] {
      NewsGrow(sets, vs, v, trials[0], labels);
      TotalGrow(sets, vs, v, trials[1..], labels);
    }
  }

  lemma {:induction false} NoNews(sets: map<string, TrialSets>, t: set<string>, labels: seq<string>)
    ensures NewsToPeers(sets, {}, t, labels) == 0
  {
    if labels != [] {
      assert t * {} - Seen(sets, labels[0]) == {};
      NoNews(sets, t, labels[1..]);
    }
  }

  lemma {:induction false} NoTotal(sets: map<string, TrialSets>, trials: seq<set<string>>, labels: seq<string>)
    ensures TotalNews(sets, {}, trials, labels) == 0
  {
    if trials != [] {
      NoNews(sets, trials[0], labels);
      NoTotal(sets, trials[1..], labels);
    }
  }

  /** The labels of the list that reached the value. */
  ghost function OwnersOf(sets: map<string, TrialSets>, v: string, labels: seq<string>): set<string> {
    if labels == [] then {}
    else (if v in Seen(sets, labels[0]) then {labels[0]} else {}) + OwnersOf(sets, v, labels[1..])
  }

  lemma {:induction false} OwnersOfMeaning(sets: map<string, TrialSets>, v: string, labels: seq<string>, l: string)
    ensures l in OwnersOf(sets, v, labels) <==> l in labels && v in Seen(sets, l)
  {
    if labels != [] {
      OwnersOfMeaning(sets, v, labels[1..], l);
      assert l in labels <==> l == labels[0] || l in labels[1..];
    }
  }

  lemma {:induction false} StrangersComplement(sets: map<string, TrialSets>, v: string, labels: seq<string>)
    requires Distinct(labels)
    ensures Strangers(sets, v, labels) + |OwnersOf(sets, v, labels)| == |labels|
  {
    if labels != [] {
      StrangersComplement(sets, v, labels[1..]);
      OwnersOfMeaning(sets, v, labels[1..], labels[0]);
    }
  }

  /** Owners and strangers of a value split the distinct labels between them. */
  lemma StrangersAreNotOwners(sets: map<string, TrialSets>, v: string, labels: seq<string>, owners: set<string>)
    requires Distinct(labels)
    requires forall l :: l in owners <==> l in labels && v in Seen(sets, l)
    ensures Strangers(sets, v, labels) + |owners| == |labels|
  {
    forall l ensures l in owners <==> l in OwnersOf(sets, v, labels) {
      OwnersOfMeaning(sets, v, labels, l);
    }
    assert owners == OwnersOf(sets, v, labels);
    StrangersComplement(sets, v, labels);
  }

  /** What one owner row says about the label `l` and about the peers that lack the value. */
  ghost predicate RowFacts(labels: seq<string>, sets: map<string, TrialSets>, trials: seq<set<string>>,
                           row: map<string, nat>, v: string, l: string) {
    && |labels| - |row| == Strangers(sets, v, labels)
    && (if l in row then row[l] else 0) == Occurrences(trials, v)
  }

  /** The contribution of one owned value to the numerator of the score of `l`. */
  method OwnerNews(labels: seq<string>, ghost sets: map<string, TrialSets>, ghost trials: seq<set<string>>,
                   row: map<string, nat>, ghost v: string, l: string)
    returns (news: int)
    requires RowFacts(labels, sets, trials, row, v, l)
    ensures news == PerTrial(trials, v, Strangers(sets, v, labels))
  {
    var strangers, count := |labels| - |row|, if l in row then row[l] else 0;
    PerTrialIsProduct(trials, v, strangers, count);
    news := strangers * count;
  }

  /** A score is an exact fraction over the number of usable trials; floats are not modelled. */
  datatype Fraction = Fraction(numerator: int, denominator: nat)

  /**
    The accumulation over the owners for one label: the numerator counts the trials of the
    label against all labels, each pair weighted with the values news to the other label.
   */
  method Score(labels: seq<string>, ghost sets: map<string, TrialSets>, ghost trials: seq<set<string>>,
               owners: map<string, map<string, nat>>, l: string, denominator: nat)
    returns (score: Fraction)
    requires forall v :: v in owners ==> RowFacts(labels, sets, trials, owners[v], v, l)
    ensures score == Fraction(TotalNews(sets, owners.Keys, trials, labels), denominator)
  {
    var numerator := 0;
    var rest := owners.Keys;
    assert owners.Keys - rest == {};
    NoTotal(sets, trials, labels);
    while rest != {}
      invariant rest <= owners.Keys
      invariant numerator == TotalNews(sets, owners.Keys - rest, trials, labels)
      decreases |rest|
    {
      var v := Pick(rest);
      RemoveOne(owners.Keys, rest, v);
      var news := OwnerNews(labels, sets, trials, owners[v], v, l);
      TotalGrow(sets, owners.Keys - rest, v, trials, labels);
      numerator := numerator + news;
      rest := rest - {v};
    }
    assert owners.Keys - {} == owners.Keys;
    score := Fraction(numerator, denominator);
  }

  lemma RowOfOwner(labels: seq<string>, sets: map<string, TrialSets>, row: map<string, nat>, v: string, l: string)
    requires Distinct(labels) && l in labels && OwnerRow(row, labels, sets, v)
    ensures RowFacts(labels, sets, Usable(SetsOf(sets, l)), row, v, l)
  {
    OccurrencesMeaning(Usable(SetsOf(sets, l)), v);
    StrangersAreNotOwners(sets, v, labels, row.Keys);
    assert |row.Keys| == |row|;
  }

  /** Restricting to the known values changes nothing: every trial lies within them. */
  lemma {:induction false} AllNews(labels: seq<string>, sets: map<string, TrialSets>, vs: set<string>,
                                   trials: seq<set<string>>)
    requires forall i :: 0 <= i < |trials| ==> trials[i] <= vs
    ensures TotalNews(sets, vs, trials, labels) == PairTotal(sets, trials, labels)
  {
    if trials != [] {
      AllNewsOf(labels, sets, vs, trials[0]);
      AllNews(labels, sets, vs, trials[1..]);
    }
  }

  lemma {:induction false} AllNewsOf(labels: seq<string>, sets: map<string, TrialSets>, vs: set<string>, t: set<string>)
    requires t <= vs
    ensures NewsToPeers(sets, vs, t, labels) == PeerTotal(sets, t, labels)
  {
    if labels != [] {
      assert t * vs == t;
      AllNewsOf(labels[1..], sets, vs, t);
    }
  }

  /** The sum over all labels `c` of |t - union(c)|. */
  ghost function PeerTotal(sets: map<string, TrialSets>, t: set<string>, labels: seq<string>): nat {
    if labels == [] then 0 else |t - Seen(sets, labels[0])| + PeerTotal(sets, t, labels[1..])
  }

  /** The sum over the trials `t` and all labels `c` of |t - union(c)|. */
  ghost function PairTotal(sets: map<string, TrialSets>, trials: seq<set<string>>, labels: seq<string>): nat {
    if trials == [] then 0 else PeerTotal(sets, trials[0], labels) + PairTotal(sets, trials[1..], labels)
  }

  /** Every pair of a trial and a label weighs what the label lacks of the trial, and weights add up. */
  lemma {:induction false} TotalPairByPair(sets: map<string, TrialSets>, trials: seq<set<string>>, t: set<string>,
                                           labels: seq<string>, c: string)
    ensures PairTotal(sets, [t], [c]) == |t - Seen(sets, c)|
    ensures PairTotal(sets, trials + [t], labels) == PairTotal(sets, trials, labels) + PairTotal(sets, [t], labels)
    ensures PairTotal(sets, [t], labels + [c]) == PairTotal(sets, [t], labels) + PairTotal(sets, [t], [c])
    ensures PairTotal(sets, [], labels) == PairTotal(sets, trials, []) == 0
  {
    assert [t][1..] == [];
    TotalOfTrials(sets, trials, t, labels);
    TotalOfPeers(sets, t, labels, c);
    TotalOfNobody(sets, trials);
  }

  lemma {:induction false} TotalOfTrials(sets: map<string, TrialSets>, trials: seq<set<string>>, t: set<string>,
                                         labels: seq<string>)
    ensures PairTotal(sets, trials + [t], labels) == PairTotal(sets, trials, labels) + PairTotal(sets, [t], labels)
  {
    if trials == [] {
      assert trials + [t] == [t];
    } else {
      assert (trials + [t])[1..] == trials[1..] + [t];
      TotalOfTrials(sets, trials[1..], t, labels);
    }
  }

  lemma {:induction false} TotalOfPeers(sets: map<string, TrialSets>, t: set<string>, labels: seq<string>, c: string)
    ensures PeerTotal(sets, t, labels + [c]) == PeerTotal(sets, t, labels) + |t - Seen(sets, c)|
    ensures PeerTotal(sets, t, [c]) == |t - Seen(sets, c)|
  {
    assert [c][1..] == [];
    if labels == [] {
      assert labels + [c] == [c];
    } else {
      assert (labels + [c])[1..] == labels[1..] + [c];
      TotalOfPeers(sets, t, labels[1..], c);
    }
  }

  lemma {:induction false} TotalOfNobody(sets: map<string, TrialSets>, trials: seq<set<string>>)
    ensures PairTotal(sets, trials, []) == 0
  {
    if trials != [] {
      TotalOfNobody(sets, trials[1..]);
    }
  }

  /** Double counting: the score is the sum over the label's trials and all labels, per usable trial. */
  ghost predicate IsScore(score: Fraction, labels: seq<string>, sets: map<string, TrialSets>, l: string) {
    var trials := Usable(SetsOf(sets, l));
    score == Fraction(PairTotal(sets, trials, labels), |trials|)
  }

  /** What the score of one label reads from the index. */
  ghost predicate Scorable(index: TrialSetIndex, labels: seq<string>, sets: map<string, TrialSets>, l: string) {
    var trials := Usable(SetsOf(sets, l));
    && TableEntry(index, sets, l)
    && (forall v :: v in index.owners ==> RowFacts(labels, sets, trials, index.owners[v], v, l))
    && (forall i :: 0 <= i < |trials| ==> trials[i] <= index.owners.Keys)
  }

  lemma IndexedIsScorable(index: TrialSetIndex, labels: seq<string>, sets: map<string, TrialSets>, l: string)
    requires Distinct(labels) && l in labels && IsIndexOf(index, labels, sets)
    ensures Scorable(index, labels, sets, l)
  {
    forall v | v in index.owners
      ensures RowFacts(labels, sets, Usable(SetsOf(sets, l)), index.owners[v], v, l)
    {
      RowOfOwner(labels, sets, index.owners[v], v, l);
    }
    TrialsAreOwned(labels, sets, index.owners, l);
  }

  /** One label's entry, if it has a usable trial. */
  method ScoreOf(labels: seq<string>, ghost sets: map<string, TrialSets>, index: TrialSetIndex, l: string)
    returns (score: Option<Fraction>)
    requires Scorable(index, labels, sets, l)
    ensures score.Some? <==> |Usable(SetsOf(sets, l))| > 0
    ensures score.Some? ==> IsScore(score.value, labels, sets, l)
  {
    var denominator := index.reps[l];
    if denominator == 0 {
      return None;
    }
    var value := Score(labels, sets, Usable(SetsOf(sets, l)), index.owners, l, denominator);
    AllNews(labels, sets, index.owners.Keys, Usable(SetsOf(sets, l)));
    score := Some(value);
  }

  /** The score of every label with a usable trial; labels without one get none. */
  method Scores(labels: seq<string>, sets: map<string, TrialSets>) returns (scores: map<string, Fraction>)
    requires Distinct(labels)
    ensures forall l :: l in scores <==> l in labels && |Usable(SetsOf(sets, l))| > 0
    ensures forall l :: l in scores ==> IsScore(scores[l], labels, sets, l)
  {
    var index := BuildIndex(labels, sets);
    scores := map[];
    for i := 0 to |labels|
      invariant forall l :: l in scores <==> l in labels[..i] && |Usable(SetsOf(sets, l))| > 0
      invariant forall l :: l in scores ==> IsScore(scores[l], labels, sets, l)
    {
      assert labels[..i + 1] == labels[..i] + [labels[i]];
      IndexedIsScorable(index, labels, sets, labels[i]);
      var score := ScoreOf(labels, sets, index, labels[i]);
      if score.Some? {
        scores := scores[labels[i] := score.value];
      }
    }
    assert labels[..|labels|] == labels;
  }

  lemma TrialsAreOwned(labels: seq<string>, sets: map<string, TrialSets>, owners: map<string, map<string, nat>>,
                       l: string)
    requires l in labels && Owners(owners, labels, sets)
    ensures forall i :: 0 <= i < |Usable(SetsOf(sets, l))| ==> Usable(SetsOf(sets, l))[i] <= owners.Keys
  {
    var trials := Usable(SetsOf(sets, l));
    forall i, v | 0 <= i < |trials| && v in trials[i] ensures v in owners {
      OccurrencesMeaning(trials, v);
    }
  }
}
