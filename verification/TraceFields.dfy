/** Finding "key=value" fields in a text: when the parser's first hit is the right one. */
module TraceFields {
  import opened Common
  import opened Text
  import opened Trace
  import opened TracePrint

  /** `key=` does not stand in the text. */
  ghost predicate NoHit(text: string, key: string) {
    forall j: nat :: !OccursAt(text, key + "=", j)
  }

  predicate EndsWith(s: string, t: string) {
    |t| <= |s| && s[|s| - |t|..] == t
  }

  predicate Bare(s: string) {
    ' ' !in s && '=' !in s
  }

  /** What stands before the '=' of a hit is the key. */
  lemma HitEnds(text: string, key: string, j: nat)
    requires OccursAt(text, key + "=", j)
    ensures j + |key| < |text| && text[j + |key|] == '=' && text[j..j + |key|] == key
  {
    var n := |key|;
    assert text[j..j + n + 1][n] == '=';
    SliceOfSlice(text, j, j + n + 1, 0, n);
    assert (key + "=")[0..n] == key;
  }

  lemma HitAt(text: string, key: string, j: nat)
    requires j + |key| < |text| && text[j + |key|] == '=' && text[j..j + |key|] == key
    ensures OccursAt(text, key + "=", j)
  {
    assert text[j..j + |key| + 1] == text[j..j + |key|] + [text[j + |key|]];
  }

  /** A hit that ends before `n` is a hit in the first `n` characters. */
  lemma HitBefore(text: string, key: string, j: nat, n: nat)
    requires OccursAt(text, key + "=", j) && j + |key| < n <= |text|
    ensures OccursAt(text[..n], key + "=", j)
  {
    assert text[..n][j..j + |key| + 1] == text[j..j + |key| + 1];
  }

  lemma NoHitText(text: string, more: string, key: string)
    requires NoHit(text, key) && '=' !in more
    ensures NoHit(text + more, key)
  {
    var s := text + more;
    assert s[..|text|] == text;
    forall j: nat
      ensures !OccursAt(s, key + "=", j)
    {
      if OccursAt(s, key + "=", j) {
        HitEnds(s, key, j);
        HitBefore(s, key, j, |text|);
      }
    }
  }

  /** A hit that ends at a field's own '=' is the end of the field's name. */
  lemma HitInName(text: string, name: string, tail: string, key: string, j: nat)
    requires Bare(name) && Bare(key)
    requires OccursAt(text + " " + name + "=" + tail, key + "=", j) && j + |key| == |text| + 1 + |name|
    ensures EndsWith(name, key)
  {
    var s := text + " " + name + "=" + tail;
    HitEnds(s, key, j);
    var n := |text| + 1;
    assert s[n - 1] == ' ';
    forall i | j <= i < j + |key|
      ensures s[i] != ' '
    {
      assert s[j..j + |key|][i - j] == s[i];
    }
    assert s[n..n + |name|] == name;
    SliceOfSlice(s, n, n + |name|, j - n, |name|);
  }

  lemma NoHitField(text: string, f: Field, key: string)
    requires NoHit(text, key) && Bare(f.name) && '=' !in f.value && Bare(key) && !EndsWith(f.name, key)
    ensures NoHit(text + FieldText(f), key)
  {
    var s := text + FieldText(f);
    assert s == text + " " + f.name + "=" + f.value;
    assert s[..|text|] == text;
    forall j: nat
      ensures !OccursAt(s, key + "=", j)
    {
      if OccursAt(s, key + "=", j) {
        HitEnds(s, key, j);
        if j + |key| < |text| {
          HitBefore(s, key, j, |text|);
        } else {
          HitInName(text, f.name, f.value, key, j);
        }
      }
    }
  }

  lemma FieldParts(text: string, f: Field, post: string)
    ensures var s := text + FieldText(f) + post;
            var at := |text| + 1;
            && |s| == at + |f.name| + 1 + |f.value| + |post|
            && s[..|text|] == text && s[|text|] == ' '
            && s[at..at + |f.name|] == f.name && s[at + |f.name|] == '='
            && s[at + |f.name| + 1..] == f.value + post
  {}

  lemma NoEarlierHit(s: string, n: nat, key: string)
    requires n + 1 + |key| < |s| && NoHit(s[..n], key) && Bare(key)
    requires s[n] == ' ' && s[n + 1..n + 1 + |key|] == key
    ensures forall j: nat :: j < n + 1 ==> !OccursAt(s, key + "=", j)
  {
    forall i | n + 1 <= i < n + 1 + |key|
      ensures s[i] != '='
    {
      assert s[n + 1..n + 1 + |key|][i - (n + 1)] == s[i];
    }
    forall j: nat | j < n + 1
      ensures !OccursAt(s, key + "=", j)
    {
      if OccursAt(s, key + "=", j) {
        HitEnds(s, key, j);
        if j + |key| < n {
          HitBefore(s, key, j, n);
        }
      }
    }
  }

  /** A field whose key does not stand before it is found. */
  lemma FieldAt(text: string, f: Field, post: string)
    requires NoHit(text, f.name) && Bare(f.name) && ' ' !in f.value && (post == "" || post[0] == ' ')
    ensures FieldValue(text + FieldText(f) + post, f.name) == TrimSpace(f.value)
  {
    hide NoHit, OccursAt, FieldText, TrimSpace, FieldValue, Bare;
    var s := text + FieldText(f) + post;
    var at := |text| + 1;
    FieldParts(text, f, post);
    HitAt(s, f.name, at);
    NoEarlierHit(s, |text|, f.name);
    IndexFirst(s, f.name + "=", at);
    ValueAfter(s, f.name, at, f.value + post);
    ValueEnds(f.value, post);
  }

  lemma ValueAfter(s: string, key: string, at: nat, rest: string)
    requires Index(s, key + "=") == Some(at) && s[at + |key| + 1..] == rest
    ensures FieldValue(s, key) == TrimSpace(rest[..IndexOf(rest, ' ')])
  {
    hide TrimSpace;
    assert |key + "="| == |key| + 1;
  }

  lemma ValueEnds(value: string, post: string)
    requires ' ' !in value && (post == "" || post[0] == ' ')
    ensures (value + post)[..IndexOf(value + post, ' ')] == value
  {
    IndexOfUnique(value + post, ' ', |value|);
  }

  predicate BareFields(fields: seq<Field>) {
    forall k :: 0 <= k < |fields| ==> Bare(fields[k].name) && '=' !in fields[k].value
  }

  predicate NoneEndsWith(fields: seq<Field>, key: string) {
    forall k :: 0 <= k < |fields| ==> !EndsWith(fields[k].name, key)
  }

  lemma {:induction false} NoHitFields(text: string, fields: seq<Field>, key: string)
    requires NoHit(text, key) && Bare(key) && BareFields(fields) && NoneEndsWith(fields, key)
    ensures NoHit(text + Fields(fields), key)
    decreases fields
  {
    hide NoHit, Bare, EndsWith, FieldText;
    if fields == [] {
      assert text + Fields(fields) == text;
    } else {
      NoHitField(text, fields[0], key);
      NoHitFields(text + FieldText(fields[0]), fields[1..], key);
      assert text + Fields(fields) == text + FieldText(fields[0]) + Fields(fields[1..]);
    }
  }

  lemma {:induction false} FieldsSplit(fields: seq<Field>, k: nat)
    requires k < |fields|
    ensures Fields(fields) == Fields(fields[..k]) + (FieldText(fields[k]) + Fields(fields[k + 1..]))
  {
    hide FieldText;
    if k > 0 {
      FieldsSplit(fields[1..], k - 1);
      assert fields[..k][1..] == fields[1..][..k - 1];
      assert fields[k + 1..] == fields[1..][k..];
      assert fields[1..][k - 1] == fields[k];
    }
  }

  lemma FieldsBegin(fields: seq<Field>)
    ensures Fields(fields) == "" || Fields(fields)[0] == ' '
  {}

  lemma Glue(text: string, a: string, b: string, c: string, post: string)
    ensures text + (a + (b + c)) + post == (text + a) + b + (c + post)
  {}

  /** A field is found among the others when no earlier name ends with its name. */
  lemma FieldsFind(text: string, fields: seq<Field>, k: nat, post: string)
    requires k < |fields| && NoHit(text, fields[k].name)
    requires BareFields(fields[..k]) && Bare(fields[k].name) && ' ' !in fields[k].value
    requires NoneEndsWith(fields[..k], fields[k].name)
    requires post == "" || post[0] == ' '
    ensures FieldValue(text + Fields(fields) + post, fields[k].name) == TrimSpace(fields[k].value)
  {
    hide NoHit, Bare, EndsWith, FieldValue, TrimSpace, FieldText, Fields;
    var before, f, after := fields[..k], fields[k], fields[k + 1..];
    NoHitFields(text, before, f.name);
    FieldsSplit(fields, k);
    FieldsBegin(after);
    FieldAt(text + Fields(before), f, Fields(after) + post);
    Glue(text, Fields(before), FieldText(f), Fields(after), post);
  }
}
