/** core/resolver.go: the namehash of a dotted name. */
module Namehash {
  import opened Bytes

  const DOT: Byte := '.'

  function FirstDot(name: Bytes): (i: nat)
    requires DOT in name
    ensures i < |name| && name[i] == DOT && DOT !in name[..i]
  {
    if name[0] == DOT then 0 else 1 + FirstDot(name[1..])
  }

  /** The pieces of a name, glued together again with dots. */
  function Join(labels: seq<Bytes>): Bytes
    requires labels != []
  {
    if |labels| == 1 then labels[0] else labels[0] + [DOT] + Join(labels[1..])
  }

  /** strings.Split(name, "."): at least one piece, no piece has a dot, nothing is lost. */
  function Split(name: Bytes): (labels: seq<Bytes>)
    ensures labels != [] && Join(labels) == name
    ensures forall l :: l in labels ==> DOT !in l
    decreases |name|
  {
    if DOT !in name then [name]
    else
      var i := FirstDot(name);
      var rest := Split(name[i + 1..]);
      assert ([name[..i]] + rest)[1..] == rest;
      assert name == name[..i] + [DOT] + name[i + 1..];
      [name[..i]] + rest
  }

  /** The labels the loop runs over: none for the empty name, which the code answers early. */
  function Labels(name: Bytes): seq<Bytes> {
    if name == "" then [] else Split(name)
  }

  function HashLabels(H: Hash, labels: seq<Bytes>): Word {
    if labels == [] then ZERO_WORD else H(HashLabels(H, labels[1..]) + H(labels[0]))
  }

  function Namehash(H: Hash, name: Bytes): Word {
    HashLabels(H, Labels(name))
  }

  /** The loop over the labels from right to left computes the fold over them. */
  method ComputeNamehash(H: Hash, name: Bytes) returns (node: Word)
    ensures node == Namehash(H, name)
  {
    node := Zeros(32);
    if name == "" {
      return;
    }
    var labels := Split(name);
    var i := |labels| - 1;
    while i >= 0
      invariant -1 <= i < |labels|
      invariant node == HashLabels(H, labels[i + 1..])
    {
      var labelHash := H(labels[i]);
      assert labels[i..][1..] == labels[i + 1..];
      node := H(node + labelHash);
      i := i - 1;
    }
  }

  /** The recursive definition of EIP-137, section "namehash algorithm": split off the text before
      the first dot, hash the remainder recursively. */
  function Eip137(H: Hash, name: Bytes): Word
    decreases |name|
  {
    if name == "" then ZERO_WORD
    else if DOT !in name then H(ZERO_WORD + H(name))
    else
      var i := FirstDot(name);
      H(Eip137(H, name[i + 1..]) + H(name[..i]))
  }

  ghost predicate EndsWithDot(name: Bytes) {
    name != "" && name[|name| - 1] == DOT
  }

  /** A trailing dot leaves one empty label at the end, and only there. */
  lemma {:induction false} TrailingDotIsEmptyLabel(name: Bytes)
    requires name != ""
    ensures EndsWithDot(name) <==> |Split(name)| > 1 && Split(name)[|Split(name)| - 1] == ""
    decreases |name|
  {
    if DOT in name {
      var i := FirstDot(name);
      var rest := name[i + 1..];
      assert Split(name) == [name[..i]] + Split(rest);
      if rest == "" {
        assert i == |name| - 1;
      } else {
        TrailingDotIsEmptyLabel(rest);
        assert rest[|rest| - 1] == name[|name| - 1];
        if |Split(rest)| == 1 {
          assert Split(rest)[0] == rest;
        }
      }
    }
  }

  /** The labels without the empty one that a trailing dot leaves behind. */
  function ProperLabels(name: Bytes): (labels: seq<Bytes>)
    requires name != ""
  {
    var ls := Split(name);
    if ls[|ls| - 1] == "" then ls[..|ls| - 1] else ls
  }

  lemma ProperLabelsStep(name: Bytes)
    requires DOT in name && name[FirstDot(name) + 1..] != ""
    ensures var i := FirstDot(name);
            ProperLabels(name) == [name[..i]] + ProperLabels(name[i + 1..])
  {
    var i := FirstDot(name);
    var rest := Split(name[i + 1..]);
    var ls := Split(name);
    assert ls == [name[..i]] + rest;
    assert ls[|ls| - 1] == rest[|rest| - 1];
    assert ls[..|ls| - 1] == [name[..i]] + rest[..|rest| - 1];
  }

  /** The standard never sees the empty label that a trailing dot leaves behind. */
  lemma {:induction false} Eip137HashesProperLabels(H: Hash, name: Bytes)
    requires name != ""
    ensures Eip137(H, name) == HashLabels(H, ProperLabels(name))
    decreases |name|
  {
    if DOT !in name {
      assert [name][1..] == [];
    } else {
      var i := FirstDot(name);
      var first, rest := name[..i], name[i + 1..];
      if rest == "" {
        assert Split(name) == [first] + [""];
        assert ProperLabels(name) == [first];
        assert [first][1..] == [];
      } else {
        ProperLabelsStep(name);
        Eip137HashesProperLabels(H, rest);
        var ls := ProperLabels(name);
        assert ls[0] == first && ls[1..] == ProperLabels(rest);
      }
    }
  }

  /** What two different label lists with one hash give away. */
  function Distinguish(H: Hash, a: seq<Bytes>, b: seq<Bytes>): Evidence
    requires a != b
  {
    if a == [] then ZeroPreimage(HashLabels(H, b[1..]) + H(b[0]))
    else if b == [] then ZeroPreimage(HashLabels(H, a[1..]) + H(a[0]))
    else
      var x := HashLabels(H, a[1..]) + H(a[0]);
      var y := HashLabels(H, b[1..]) + H(b[0]);
      if x != y then Collision(x, y)
      else if a[0] != b[0] then Collision(a[0], b[0])
      else
        assert a == [a[0]] + a[1..] && b == [b[0]] + b[1..];
        Distinguish(H, a[1..], b[1..])
  }

  lemma {:induction false} DistinguishRefutes(H: Hash, a: seq<Bytes>, b: seq<Bytes>)
    requires a != b && HashLabels(H, a) == HashLabels(H, b)
    ensures Refutes(H, Distinguish(H, a, b))
  {
    if a != [] && b != [] {
      var x := HashLabels(H, a[1..]) + H(a[0]);
      var y := HashLabels(H, b[1..]) + H(b[0]);
      if x == y {
        assert x[..32] == HashLabels(H, a[1..]) && y[..32] == HashLabels(H, b[1..]);
        assert x[32..] == H(a[0]) && y[32..] == H(b[0]);
        if a[0] == b[0] {
          assert a == [a[0]] + a[1..] && b == [b[0]] + b[1..];
          DistinguishRefutes(H, a[1..], b[1..]);
        }
      }
    }
  }

  lemma LabelsInjective(a: Bytes, b: Bytes)
    requires Labels(a) == Labels(b)
    ensures a == b
  {
    if a != "" && b != "" {
      assert a == Join(Split(a)) == Join(Split(b)) == b;
    }
  }

  /** Two names with one namehash break Keccak, and the proof of it can be computed. */
  lemma NamehashInjectiveUnlessBroken(H: Hash, a: Bytes, b: Bytes)
    requires a != b && Namehash(H, a) == Namehash(H, b)
    ensures Labels(a) != Labels(b) && Refutes(H, Distinguish(H, Labels(a), Labels(b)))
  {
    if Labels(a) == Labels(b) {
      LabelsInjective(a, b);
    }
    DistinguishRefutes(H, Labels(a), Labels(b));
  }

  lemma PlainNameIsEip137(H: Hash, name: Bytes)
    requires !EndsWithDot(name)
    ensures Namehash(H, name) == Eip137(H, name)
  {
    if name != "" {
      Eip137HashesProperLabels(H, name);
      TrailingDotIsEmptyLabel(name);
    }
  }

  lemma TrailingDotDiffers(H: Hash, name: Bytes)
    requires EndsWithDot(name)
    ensures |Labels(name)| > 1
    ensures var ls := Labels(name);
            Namehash(H, name) == Eip137(H, name) ==> Refutes(H, Distinguish(H, ls, ls[..|ls| - 1]))
  {
    Eip137HashesProperLabels(H, name);
    TrailingDotIsEmptyLabel(name);
    var ls := Labels(name);
    if HashLabels(H, ls) == HashLabels(H, ls[..|ls| - 1]) {
      DistinguishRefutes(H, ls, ls[..|ls| - 1]);
    }
  }

  /** The code follows EIP-137 on exactly the names without a trailing dot: on the others agreement
      would break Keccak. */
  lemma NamehashIsEip137(H: Hash, name: Bytes)
    ensures !EndsWithDot(name) ==> Namehash(H, name) == Eip137(H, name)
    ensures EndsWithDot(name) ==> |Labels(name)| > 1
    ensures EndsWithDot(name) && Namehash(H, name) == Eip137(H, name) ==>
              var ls := Labels(name);
              Refutes(H, Distinguish(H, ls, ls[..|ls| - 1]))
  {
    if EndsWithDot(name) {
      TrailingDotDiffers(H, name);
    } else {
      PlainNameIsEip137(H, name);
    }
  }
}
