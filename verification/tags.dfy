/** Canonical tags (`normalizeTags` in `memory/memory.go`). Case and white space are the
    ASCII ones. */
module Tags {
  predicate IsSpace(c: char) {
    c == ' ' || c == '\t' || c == '\n' || c == '\r' || c == '\U{0B}' || c == '\U{0C}'
  }

  function LowerChar(c: char): char {
    if 'A' <= c <= 'Z' then c - 'A' + 'a' else c
  }

  function Lower(s: string): (r: string)
    ensures |r| == |s|
  {
    seq(|s|, i requires 0 <= i < |s| => LowerChar(s[i]))
  }

  function TrimLeft(s: string): string {
    if s != [] && IsSpace(s[0]) then TrimLeft(s[1..]) else s
  }

  function TrimRight(s: string): string {
    if s != [] && IsSpace(s[|s| - 1]) then TrimRight(s[..|s| - 1]) else s
  }

  function Canonical(tag: string): string {
    Lower(TrimRight(TrimLeft(tag)))
  }

  predicate Trimmed(s: string) {
    s == [] || (!IsSpace(s[0]) && !IsSpace(s[|s| - 1]))
  }

  lemma {:induction false} TrimLeftHead(s: string)
    ensures TrimLeft(s) == [] || !IsSpace(TrimLeft(s)[0])
  {
    if s != [] && IsSpace(s[0]) {
      TrimLeftHead(s[1..]);
    }
  }

  lemma {:induction false} TrimRightTrims(s: string)
    requires s == [] || !IsSpace(s[0])
    ensures Trimmed(TrimRight(s))
  {
    if s != [] && IsSpace(s[|s| - 1]) {
      assert s[..|s| - 1] != [];
      TrimRightTrims(s[..|s| - 1]);
    }
  }

  lemma LowerKeeps(s: string)
    ensures Trimmed(s) ==> Trimmed(Lower(s))
    ensures Lower(Lower(s)) == Lower(s)
  {
  }

  // ---------------------------------------------------------------------------
  // What the canonical form is

  lemma {:induction false} TrimLeftCuts(s: string) returns (lead: nat)
    ensures lead <= |s| && TrimLeft(s) == s[lead..] && forall i :: 0 <= i < lead ==> IsSpace(s[i])
  {
    if s != [] && IsSpace(s[0]) {
      var rest := TrimLeftCuts(s[1..]);
      lead := rest + 1;
      assert forall i :: 1 <= i < lead ==> s[i] == s[1..][i - 1];
    } else {
      lead := 0;
    }
  }

  lemma {:induction false} TrimRightCuts(s: string) returns (end: nat)
    ensures end <= |s| && TrimRight(s) == s[..end] && forall i :: end <= i < |s| ==> IsSpace(s[i])
  {
    var n := |s|;
    if s != [] && IsSpace(s[n - 1]) {
      end := TrimRightCuts(s[..n - 1]);
      assert forall i :: end <= i < n - 1 ==> s[i] == s[..n - 1][i];
    } else {
      end := n;
    }
  }

  /** The canonical form is the tag between its leading and its trailing white space, with
      its capitals turned to small letters; every other character stays. */
  lemma CanonicalMeans(tag: string) returns (lead: nat, end: nat)
    ensures lead <= end <= |tag| && |Canonical(tag)| == end - lead
    ensures forall i :: 0 <= i < lead || end <= i < |tag| ==> tag[i] in " \t\n\r\U{0B}\U{0C}"
    ensures lead < end ==> tag[lead] !in " \t\n\r\U{0B}\U{0C}" && tag[end - 1] !in " \t\n\r\U{0B}\U{0C}"
    ensures forall i :: lead <= i < end ==>
      Canonical(tag)[i - lead] as int == tag[i] as int + if 'A' <= tag[i] <= 'Z' then 32 else 0
  {
    hide TrimLeft, TrimRight;
    lead := TrimLeftCuts(tag);
    var t := TrimLeft(tag);
    TrimLeftHead(tag);
    var n := TrimRightCuts(t);
    TrimRightTrims(t);
    end := lead + n;
    assert forall i :: lead <= i < |tag| ==> tag[i] == t[i - lead];
  }

  lemma CanonicalTwice(tag: string)
    ensures Canonical(Canonical(tag)) == Canonical(tag)
  {
    hide Lower;
    var t := TrimRight(TrimLeft(tag));
    TrimLeftHead(tag);
    TrimRightTrims(TrimLeft(tag));
    LowerKeeps(t);
    assert TrimLeft(Lower(t)) == Lower(t);
    assert TrimRight(Lower(t)) == Lower(t);
  }

  /** Each canonical form once, at its first appearance, the empty one never. */
  function Normalized(tags: seq<string>): seq<string> {
    if tags == [] then []
    else
      var before, n := Normalized(tags[..|tags| - 1]), Canonical(tags[|tags| - 1]);
      if n == "" || n in before then before else before + [n]
  }

  ghost predicate IsNormal(tags: seq<string>) {
    && (forall i :: 0 <= i < |tags| ==> tags[i] != "" && Canonical(tags[i]) == tags[i])
    && forall i, j :: 0 <= i < j < |tags| ==> tags[i] != tags[j]
  }

  lemma {:induction false} NormalizedIsNormal(tags: seq<string>)
    ensures IsNormal(Normalized(tags))
    ensures forall n :: n in Normalized(tags) <==> n != "" && HasForm(tags, n)
  {
    hide Canonical;
    if tags != [] {
      var front, last := tags[..|tags| - 1], tags[|tags| - 1];
      NormalizedIsNormal(front);
      CanonicalTwice(last);
      FormsStep(tags);
    }
  }

  /** Each canonical form stands where it first appeared. */
  lemma {:induction false} FirstAppearances(tags: seq<string>) returns (at: seq<nat>)
    ensures |at| == |Normalized(tags)|
    ensures forall i :: 0 <= i < |at| ==> at[i] < |tags| && Canonical(tags[at[i]]) == Normalized(tags)[i]
    ensures forall i, k :: 0 <= i < |at| && 0 <= k < at[i] ==> Canonical(tags[k]) != Normalized(tags)[i]
    ensures forall i, j :: 0 <= i < j < |at| ==> at[i] < at[j]
  {
    hide Canonical;
    if tags == [] {
      at := [];
    } else {
      var last := |tags| - 1;
      var front := tags[..last];
      at := FirstAppearances(front);
      NormalizedIsNormal(front);
      var n := Canonical(tags[last]);
      assert forall k :: 0 <= k < last ==> front[k] == tags[k];
      if n != "" && n !in Normalized(front) {
        assert forall k :: 0 <= k < last ==> (Canonical(tags[k]) == n ==> HasForm(front, n));
        at := at + [last];
      }
    }
  }

  ghost predicate HasForm(tags: seq<string>, n: string) {
    exists i :: 0 <= i < |tags| && Canonical(tags[i]) == n
  }

  lemma FormsStep(tags: seq<string>)
    requires tags != []
    ensures forall n :: HasForm(tags, n) <==> HasForm(tags[..|tags| - 1], n) || Canonical(tags[|tags| - 1]) == n
  {
    hide Canonical;
    var front := tags[..|tags| - 1];
    forall n | HasForm(tags, n) && Canonical(tags[|tags| - 1]) != n
      ensures HasForm(front, n)
    {
      var i :| 0 <= i < |tags| && Canonical(tags[i]) == n;
      assert front[i] == tags[i];
    }
    forall n | HasForm(front, n)
      ensures HasForm(tags, n)
    {
      var i :| 0 <= i < |front| && Canonical(front[i]) == n;
      assert tags[i] == front[i];
    }
  }

  lemma {:induction false} NormalStays(tags: seq<string>)
    requires IsNormal(tags)
    ensures Normalized(tags) == tags
  {
    hide Canonical;
    if tags != [] {
      NormalStays(tags[..|tags| - 1]);
    }
  }

  /** Normalizing what is already normalized changes nothing, so a rebuild keeps the tags. */
  lemma NormalizedTwice(tags: seq<string>)
    ensures Normalized(Normalized(tags)) == Normalized(tags)
  {
    NormalizedIsNormal(tags);
    NormalStays(Normalized(tags));
  }

  /** `normalizeTags` */
  method Normalize(tags: seq<string>) returns (out: seq<string>)
    ensures out == Normalized(tags)
  {
    hide Canonical;
    out := [];
    var seen: set<string> := {};
    for i := 0 to |tags|
      invariant out == Normalized(tags[..i])
      invariant forall n :: n in seen <==> n in out
    {
      var n := Canonical(tags[i]);
      assert tags[..i + 1][..i] == tags[..i];
      if n == "" || n in seen {
        continue;
      }
      seen := seen + {n};
      out := out + [n];
    }
    assert tags[..|tags|] == tags;
  }
}
