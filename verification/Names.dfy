/**
 Qualified job names.  A job of an included file is called
 `<name of the include>/<own name>`, at any nesting depth.
 */
module Names {

  /** The characters a job name may contain; '/' is not among them. */
  predicate NameChar(c: char) {
    'a' <= c <= 'z' || '0' <= c <= '9' || c == '_' || c == '-'
  }

  predicate ValidName(n: string) {
    n != "" && forall i :: 0 <= i < |n| ==> NameChar(n[i])
  }

  function Dir(parent: string): string {
    if parent == "" then "" else parent + "/"
  }

  /** The name a job of the file included as `parent` gets; the root file has the parent "". */
  function Full(parent: string, name: string): string {
    Dir(parent) + name
  }

  ghost predicate Below(x: string, full: string) {
    full + "/" <= x
  }

  /** `x` is the include `full` itself or a job somewhere inside it. */
  ghost predicate InBlock(x: string, full: string) {
    x == full || Below(x, full)
  }

  lemma {:induction false} RootName(name: string)
    ensures Full("", name) == name
  {
  }

  lemma {:induction false} FullInjective(parent: string, a: string, b: string)
    requires Full(parent, a) == Full(parent, b)
    ensures a == b
  {
    assert a == Full(parent, a)[|Dir(parent)|..];
    assert b == Full(parent, b)[|Dir(parent)|..];
  }

  /** Reading a qualified name in some block: the segment after the parent, then '/' or the end. */
  lemma {:induction false} BlockSegment(x: string, parent: string, a: string)
    requires InBlock(x, Full(parent, a))
    ensures Dir(parent) <= x
    ensures a <= x[|Dir(parent)|..]
    ensures var rest := x[|Dir(parent)|..]; |rest| == |a| || (|rest| > |a| && rest[|a|] == '/')
  {
    var full := Full(parent, a);
    var d := |Dir(parent)|;
    assert full <= x;
    assert x[..d] == full[..d] == Dir(parent);
    assert x[d..][..|a|] == full[d..] == a;
    if Below(x, full) {
      assert x[d..][|a|] == x[|full|] == (full + "/")[|full|] == '/';
    }
  }

  /** Blocks of two different jobs of one file have no name in common. */
  lemma {:induction false} BlocksDisjoint(x: string, parent: string, a: string, b: string)
    requires ValidName(a) && ValidName(b)
    requires InBlock(x, Full(parent, a)) && InBlock(x, Full(parent, b))
    ensures a == b
  {
    BlockSegment(x, parent, a);
    BlockSegment(x, parent, b);
    SegmentsAgree(x[|Dir(parent)|..], a, b);
    SegmentsAgree(x[|Dir(parent)|..], b, a);
  }

  lemma {:induction false} SegmentsAgree(rest: string, a: string, b: string)
    requires ValidName(b)
    requires a <= rest && (|rest| == |a| || (|rest| > |a| && rest[|a|] == '/'))
    requires b <= rest
    ensures |b| <= |a|
    ensures |a| == |b| ==> a == b
  {
    assert forall i :: 0 <= i < |b| ==> rest[i] == b[i] && NameChar(b[i]);
    assert |a| == |b| ==> a == rest[..|a|] == b;
  }

  /** At the root, a name in the block of a job begins like the job. */
  lemma {:induction false} BlockStart(x: string, name: string)
    requires name != "" && InBlock(x, Full("", name))
    ensures x != "" && x[0] == name[0]
  {
    BlockSegment(x, "", name);
    assert x[|Dir("")|..] == x;
  }

  lemma {:induction false} FullNonEmpty(parent: string, name: string)
    requires ValidName(name)
    ensures Full(parent, name) != ""
  {
  }

  /** A block of a job of the file included as `parent` lies strictly below `parent`. */
  lemma {:induction false} NestedBelow(x: string, parent: string, name: string)
    requires parent != "" && InBlock(x, Full(parent, name))
    ensures Below(x, parent)
    ensures x != parent
  {
    assert Full(parent, name)[..|parent| + 1] == parent + "/";
    assert x[..|Full(parent, name)|] == Full(parent, name);
    assert x[..|parent| + 1] == parent + "/";
  }
}
