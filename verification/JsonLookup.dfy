/** Looking a member up by name, ignoring case. */
module JsonLookup {
  import opened Bytes
  import opened JsonValue

  /** `tolower` in the "C" locale */
  function Lower(b: byte): byte { if 65 <= b <= 90 then b + 32 else b }

  predicate SameName(a: bytes, b: bytes) { |a| == |b| && forall i :: 0 <= i < |a| ==> Lower(a[i]) == Lower(b[i]) }

  /** The 26 letters lose their case, and nothing else changes. */
  lemma LowerIs(b: byte)
    ensures forall i :: 0 <= i < 26 ==>
              (b == "ABCDEFGHIJKLMNOPQRSTUVWXYZ"[i] as int ==> Lower(b) == "abcdefghijklmnopqrstuvwxyz"[i] as int)
    ensures b as char !in "ABCDEFGHIJKLMNOPQRSTUVWXYZ" ==> Lower(b) == b
  {
    if 65 <= b <= 90 {
      assert "ABCDEFGHIJKLMNOPQRSTUVWXYZ"[b - 65] == b as char;
    }
  }

  /** A C string as its reader sees it: the terminator follows the last byte. */
  function CharAt(s: bytes, i: nat): byte
    requires i <= |s|
  {
    if i < |s| then s[i] else 0
  }

  /** case_insensitive_strcmp */
  method CaseInsensitiveStrcmp(a: bytes, b: bytes) returns (difference: int)
    requires NulFree(a) && NulFree(b)
    ensures difference == 0 <==> SameName(a, b)
  {
    var i := 0;
    while Lower(CharAt(a, i)) == Lower(CharAt(b, i))
      invariant i <= |a| && i <= |b| && forall j :: 0 <= j < i ==> Lower(a[j]) == Lower(b[j])
      decreases |a| - i
    {
      if CharAt(a, i) == 0 {
        return 0;
      }
      i := i + 1;
    }
    return Lower(CharAt(a, i)) as int - Lower(CharAt(b, i)) as int;
  }

  predicate Named(m: Member, name: bytes) { SameName(name, CString(m.key)) }

  function FirstNamed(members: seq<Member>, name: bytes): Option<Value> {
    if members == [] then None
    else if Named(members[0], name) then Some(members[0].val)
    else FirstNamed(members[1..], name)
  }

  /** What cJSON_GetObjectItem finds: only the children of an object carry names. */
  function Lookup(v: Value, name: bytes): Option<Value> {
    if v.Object? then FirstNamed(v.members, name) else None
  }

  lemma {:induction false} FirstNamedAt(members: seq<Member>, name: bytes, i: nat)
    requires i <= |members| && forall j :: 0 <= j < i ==> !Named(members[j], name)
    ensures FirstNamed(members, name) == FirstNamed(members[i..], name)
  {
    if i > 0 {
      FirstNamedAt(members[1..], name, i - 1);
      assert members[1..][i - 1..] == members[i..];
    } else {
      assert members[0..] == members;
    }
  }

  /** The i-th member is the first one of that name. */
  predicate IsFirst(v: Value, name: bytes, i: nat) {
    && v.Object? && i < |v.members| && SameName(name, CString(v.members[i].key))
    && forall j :: 0 <= j < i ==> !SameName(name, CString(v.members[j].key))
  }

  /** Looking up finds just the value of the first member of that name. */
  lemma LookupIs(v: Value, name: bytes)
    ensures forall i: nat :: IsFirst(v, name, i) ==> Lookup(v, name) == Some(v.members[i].val)
    ensures Lookup(v, name).Some? ==> exists i: nat :: IsFirst(v, name, i)
  {
    hide SameName, CString;
    forall i: nat | IsFirst(v, name, i) ensures Lookup(v, name) == Some(v.members[i].val) {
      FirstNamedAt(v.members, name, i);
      assert v.members[i..][0] == v.members[i];
    }
    if Lookup(v, name).Some? {
      var i := FirstOf(v, name, 0);
    }
  }

  lemma {:induction false} FirstOf(v: Value, name: bytes, n: nat) returns (i: nat)
    requires v.Object? && n <= |v.members| && FirstNamed(v.members[n..], name).Some?
    requires forall j :: 0 <= j < n ==> !SameName(name, CString(v.members[j].key))
    ensures IsFirst(v, name, i)
    decreases |v.members| - n
  {
    hide SameName, CString;
    i := n;
    if !SameName(name, CString(v.members[n].key)) {
      assert v.members[n..][1..] == v.members[n + 1..];
      i := FirstOf(v, name, n + 1);
    }
  }

  /** get_object_item, not minding case */
  method GetObjectItem(v: Value, name: bytes) returns (item: Option<Value>)
    requires NulFree(name)
    ensures item == Lookup(v, name)
  {
    if !v.Object? {
      return None;
    }
    var i := 0;
    while i < |v.members|
      invariant i <= |v.members| && forall j :: 0 <= j < i ==> !Named(v.members[j], name)
    {
      var difference := CaseInsensitiveStrcmp(name, CString(v.members[i].key));
      if difference == 0 {
        FirstNamedAt(v.members, name, i);
        return Some(v.members[i].val);
      }
      i := i + 1;
    }
    FirstNamedAt(v.members, name, i);
    return None;
  }
}
