/** Node names (internal/pkg/clusterspec/firewall.go) and the check that traces a snapshot's
    members back to a cluster by them (tools/etcd/main.go). */
module NodeNames {
  import opened Wrappers
  import opened Decimal

  const ROLE_CONTROL_PLANE := "control-plane"

  function NodeNamePrefix(cluster: string, pool: string): string {
    cluster + "-" + pool + "-"
  }

  function NodeName(cluster: string, pool: string, ordinal: nat): string {
    NodeNamePrefix(cluster, pool) + Itoa(ordinal)
  }

  predicate LabelCharacter(c: char) {
    c == '-' || 'a' <= c <= 'z' || '0' <= c <= '9'
  }

  /** The shape of a DNS label (section 2.1 of RFC 1123), length aside: `dns1123`. */
  predicate LabelShape(s: string) {
    && s != "" && s[0] != '-' && s[|s| - 1] != '-'
    && forall i :: 0 <= i < |s| ==> LabelCharacter(s[i])
  }

  /** Lower-case letters, digits and hyphens, with a letter or a digit at either end. */
  lemma LabelExactly(s: string)
    ensures LabelShape(s) <==>
      && |s| > 0
      && ('a' <= s[0] <= 'z' || '0' <= s[0] <= '9') && ('a' <= s[|s| - 1] <= 'z' || '0' <= s[|s| - 1] <= '9')
      && forall i :: 1 <= i < |s| - 1 ==> s[i] == '-' || 'a' <= s[i] <= 'z' || '0' <= s[i] <= '9'
  {
    if |s| > 0 { assert LabelShape(s) ==> LabelCharacter(s[0]) && LabelCharacter(s[|s| - 1]); }
  }

  /** Two digit strings behind two hyphens: the last hyphen of a name decides where its ordinal starts. */
  lemma LastHyphen(a: string, m: string, b: string, n: string)
    requires AllDigits(m) && AllDigits(n)
    requires a + "-" + m == b + "-" + n
    ensures a == b && m == n
  {
    var s := a + "-" + m;
    forall k | |a| < k < |s|
      ensures s[k] != '-'
    {
      assert s[k] == m[k - |a| - 1];
    }
    forall k | |b| < k < |s|
      ensures s[k] != '-'
    {
      assert s[k] == (b + "-" + n)[k] == n[k - |b| - 1];
    }
    assert s[|a|] == '-' && (b + "-" + n)[|b|] == '-';
    assert |a| == |b|;
    assert s[..|a|] == a && s[|a| + 1..] == m;
    assert (b + "-" + n)[..|b|] == b && (b + "-" + n)[|b| + 1..] == n;
  }

  /** Within one cluster a name determines its pool and its ordinal. */
  lemma NamesDistinct(cluster: string, p: string, i: nat, q: string, j: nat)
    requires NodeName(cluster, p, i) == NodeName(cluster, q, j)
    ensures p == q && i == j
  {
    ItoaReads(i);
    ItoaReads(j);
    assert NodeName(cluster, p, i) == (cluster + "-" + p) + "-" + Itoa(i);
    assert NodeName(cluster, q, j) == (cluster + "-" + q) + "-" + Itoa(j);
    LastHyphen(cluster + "-" + p, Itoa(i), cluster + "-" + q, Itoa(j));
    assert (cluster + "-" + p)[|cluster| + 1..] == p;
    assert (cluster + "-" + q)[|cluster| + 1..] == q;
  }

  /** A label-shaped cluster and pool give label-shaped node names. */
  lemma NameShape(cluster: string, pool: string, i: nat)
    requires LabelShape(cluster) && LabelShape(pool)
    ensures LabelShape(NodeName(cluster, pool, i))
  {
    ItoaReads(i);
    var s, digits := NodeName(cluster, pool, i), Itoa(i);
    var prefix := NodeNamePrefix(cluster, pool);
    assert s[|s| - 1] == digits[|digits| - 1];
    forall k | 0 <= k < |s|
      ensures LabelCharacter(s[k])
    {
      if k < |cluster| {
        assert s[k] == cluster[k];
      } else if |cluster| < k < |prefix| - 1 {
        assert s[k] == pool[k - |cluster| - 1];
      } else if k >= |prefix| {
        assert s[k] == digits[k - |prefix|];
      }
    }
  }

  /** `strings.CutPrefix`. */
  function CutPrefix(s: string, prefix: string): Option<string> {
    if prefix <= s then Some(s[|prefix|..]) else None
  }

  /** A member is this cluster's when its name is the control-plane prefix and a number. */
  predicate Own(name: string, cluster: string) {
    var ordinal := CutPrefix(name, NodeNamePrefix(cluster, ROLE_CONTROL_PLANE));
    ordinal.Some? && Atoi(ordinal.value).Some?
  }

  datatype Refusal = NoMembers | Foreign(names: seq<string>)

  ghost function ForeignNames(members: seq<string>, cluster: string): seq<string> {
    if members == [] then []
    else
      var last := members[|members| - 1];
      ForeignNames(members[..|members| - 1], cluster) + if Own(last, cluster) then [] else [last]
  }

  lemma ForeignStep(members: seq<string>, i: nat, cluster: string)
    requires i < |members|
    ensures ForeignNames(members[..i + 1], cluster)
            == ForeignNames(members[..i], cluster) + if Own(members[i], cluster) then [] else [members[i]]
  {
    hide Own;
    assert members[..i + 1][..i] == members[..i];
  }

  /** The test inside the loop. */
  method IsOwn(name: string, cluster: string) returns (own: bool)
    ensures own == Own(name, cluster)
  {
    var ordinal := CutPrefix(name, NodeNamePrefix(cluster, ROLE_CONTROL_PLANE));
    own := ordinal.Some? && Atoi(ordinal.value).Some?;
  }

  /** `belongsTo`: the refusal names every foreign member, in order. */
  method BelongsTo(members: seq<string>, cluster: string) returns (refusal: Option<Refusal>)
    ensures members == [] ==> refusal == Some(NoMembers)
    ensures members != [] && ForeignNames(members, cluster) == [] ==> refusal == None
    ensures members != [] && ForeignNames(members, cluster) != [] ==>
      refusal == Some(Foreign(ForeignNames(members, cluster)))
  {
    if |members| == 0 {
      return Some(NoMembers);
    }
    hide Own;
    var foreign: seq<string> := [];
    var i := 0;
    while i < |members|
      invariant 0 <= i <= |members|
      invariant foreign == ForeignNames(members[..i], cluster)
    {
      hide ForeignNames;
      ForeignStep(members, i, cluster);
      var own := IsOwn(members[i], cluster);
      if !own {
        foreign := foreign + [members[i]];
      }
      i := i + 1;
    }
    assert members[..i] == members;
    refusal := if |foreign| > 0 then Some(Foreign(foreign)) else None;
  }

  lemma {:induction false} NoForeignNames(members: seq<string>, cluster: string)
    ensures ForeignNames(members, cluster) == [] <==> forall name :: name in members ==> Own(name, cluster)
    decreases |members|
  {
    hide Own;
    if members != [] {
      NoForeignNames(members[..|members| - 1], cluster);
      assert members == members[..|members| - 1] + [members[|members| - 1]];
    }
  }

  lemma RolesApart(x: string, y: string)
    requires |x| == |y| + 1
    ensures NodeNamePrefix(x, ROLE_CONTROL_PLANE)[|x|] != NodeNamePrefix(y, ROLE_CONTROL_PLANE)[|x|]
  {
  }

  /** What follows the other cluster's prefix is a sign at most, then digits. */
  lemma OwnDigits(name: string, y: string)
    requires Own(name, y)
    ensures var theirs := NodeNamePrefix(y, ROLE_CONTROL_PLANE);
            theirs <= name && forall k :: |theirs| < k < |name| ==> IsDigit(name[k])
  {
  }

  /** The closing hyphens of the two prefixes stand where the other has no digit, so the
      prefixes end within one character of each other, and then they are the same. */
  lemma OwnTells(x: string, y: string, ordinal: nat)
    requires Own(NodeName(x, ROLE_CONTROL_PLANE, ordinal), y)
    ensures x == y
  {
    var name, digits := NodeName(x, ROLE_CONTROL_PLANE, ordinal), Itoa(ordinal);
    var mine, theirs := NodeNamePrefix(x, ROLE_CONTROL_PLANE), NodeNamePrefix(y, ROLE_CONTROL_PLANE);
    ItoaReads(ordinal);
    OwnDigits(name, y);
    forall k | |mine| <= k < |name|
      ensures IsDigit(name[k])
    {
      assert name[k] == digits[k - |mine|];
    }
    assert name[|theirs| - 1] == theirs[|theirs| - 1] == '-';
    assert name[|mine| - 1] == mine[|mine| - 1] == '-';
    assert |theirs| <= |mine| <= |theirs| + 1;
    assert name[|x|] == mine[|x|] && name[|x|] == theirs[|x|];
    if |x| == |y| + 1 {
      RolesApart(x, y);
      assert false;
    }
    assert name[..|x|] == mine[..|x|] == x;
    assert name[..|y|] == theirs[..|y|] == y;
  }

  /** A control-plane name of one cluster is never another's, whatever the two are called. */
  lemma OwnExactly(x: string, y: string, ordinal: Int)
    requires ordinal >= 0
    ensures Own(NodeName(x, ROLE_CONTROL_PLANE, ordinal), y) <==> x == y
  {
    if x == y {
      assert NodeName(x, ROLE_CONTROL_PLANE, ordinal)[|NodeNamePrefix(y, ROLE_CONTROL_PLANE)|..] == Itoa(ordinal);
      AtoiOfItoa(ordinal);
    } else if Own(NodeName(x, ROLE_CONTROL_PLANE, ordinal), y) {
      OwnTells(x, y, ordinal);
    }
  }

  /** Every snapshot of cluster x's control plane is accepted for x and refused for any other. */
  lemma BelongsToExactly(x: string, y: string, ordinals: seq<Int>)
    requires ordinals != [] && forall i :: 0 <= i < |ordinals| ==> ordinals[i] >= 0
    ensures var members := seq(|ordinals|, i requires 0 <= i < |ordinals| => NodeName(x, ROLE_CONTROL_PLANE, ordinals[i]));
            ForeignNames(members, y) == [] <==> x == y
  {
    var members := seq(|ordinals|, i requires 0 <= i < |ordinals| => NodeName(x, ROLE_CONTROL_PLANE, ordinals[i]));
    NoForeignNames(members, y);
    forall i | 0 <= i < |ordinals|
      ensures Own(members[i], y) <==> x == y
    {
      OwnExactly(x, y, ordinals[i]);
    }
    assert members[0] in members;
  }
}
