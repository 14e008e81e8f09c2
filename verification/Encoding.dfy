/** The fixed-width encoding that joins rule strings to kernel bytes (internal/ebpf/types.go),
    and the kernel's comparison of two encoded paths. */
module Encoding {
  import opened Bytes

  const ACTION_PASS: byte := 0
  const ACTION_HIDE: byte := 1
  const ACTION_REWRITE: byte := 2
  const MAX_PATH_LEN := 64
  const MAX_TEXT_LEN := 64
  const MAX_COMM_LEN := 16

  /** A `char[64]` field. */
  type Field = s: Str | |s| == 64 witness seq(64, i => 0)

  /** A `char[16]` task name. */
  type CommKey = s: Str | |s| == 16 witness seq(16, i => 0)

  /** `struct policy`; the padding bytes carry no information. */
  datatype Policy = Policy(action: byte, targetPath: Field, textLen: u32, find: Field, replace: Field)

  /** How many bytes of `src` are stored in a field of `n` bytes: a source that fills the field loses its tail. */
  function Kept(n: nat, src: Str): nat {
    if n == 0 then 0 else if |src| >= n then n - 1 else |src|
  }

  /** The `n`-byte, zero-padded field that holds `src`. */
  function Fixed(n: nat, src: Str): (field: Str)
    ensures |field| == n
    ensures forall i | 0 <= i < n :: field[i] == if i < |src| && i < n - 1 then src[i] else 0
  {
    src[..Kept(n, src)] + seq(n - Kept(n, src), i => 0)
  }

  /** The C string held by a field: everything before the first NUL, or the whole field. */
  function CString(field: Str): (s: Str)
    ensures NulFree(s)
    ensures |s| <= |field| && s == field[..|s|]
    ensures |s| < |field| ==> field[|s|] == 0
  {
    if field == [] || field[0] == 0 then [] else [field[0]] + CString(field[1..])
  }

  /** `copyStringToInt8`: fills the front of `dst`, leaving the rest alone. */
  method CopyString(dst: array<byte>, src: Str)
    modifies dst
    ensures dst[..] == src[..Kept(dst.Length, src)] + old(dst[..])[Kept(dst.Length, src)..]
  {
    var limit := dst.Length;
    if limit == 0 {
      return;
    }
    if |src| >= limit {
      limit := limit - 1;
    } else {
      limit := |src|;
    }
    for i := 0 to limit
      invariant forall j | 0 <= j < i :: dst[j] == src[j]
      invariant forall j | i <= j < dst.Length :: dst[j] == old(dst[j])
    {
      dst[i] := src[i];
    }
  }

  method EncodeField(n: nat, src: Str) returns (field: Str)
    ensures field == Fixed(n, src)
  {
    var zeroed := new byte[n](_ => 0);
    CopyString(zeroed, src);
    field := zeroed[..];
  }

  /** What `NewPolicy` stores. */
  function PolicyOf(action: byte, path: Str, find: Str, replace: Str): Policy {
    Policy(action, Fixed(64, path), Min(|find|, MAX_TEXT_LEN), Fixed(64, find), Fixed(64, replace))
  }

  method NewPolicy(action: byte, path: Str, find: Str, replace: Str) returns (policy: Policy)
    ensures policy == PolicyOf(action, path, find, replace)
    ensures policy.action == action && policy.textLen == if |find| < 64 then |find| else 64
  {
    var targetPath := EncodeField(MAX_PATH_LEN, path);
    var findField := EncodeField(MAX_TEXT_LEN, find);
    var replaceField := EncodeField(MAX_TEXT_LEN, replace);
    var textLen := |find|;
    if textLen > |findField| {
      textLen := |findField|;
    }
    if textLen > |replaceField| {
      textLen := |replaceField|;
    }
    policy := Policy(action, targetPath, textLen, findField, replaceField);
  }

  function CommKeyOf(comm: Str): CommKey {
    Fixed(16, comm)
  }

  /** `Int8SliceToString`: the inverse of the encoding, used to print events. */
  method Int8SliceToString(src: Str) returns (s: Str)
    ensures s == CString(src)
  {
    var end := 0;
    while end < |src| && src[end] != 0
      invariant 0 <= end <= |src| && NulFree(src[..end])
    {
      end := end + 1;
    }
    assert src == src[..end] + src[end..];
    CStringOfPrefix(src[..end], src[end..]);
    var buf := new byte[end](_ => 0);
    for i := 0 to end
      invariant forall j | 0 <= j < i :: buf[j] == src[j]
    {
      buf[i] := src[i];
    }
    s := buf[..];
  }

  lemma {:induction false} CStringOfPrefix(s: Str, rest: Str)
    requires NulFree(s) && (rest == [] || rest[0] == 0)
    ensures CString(s + rest) == s
  {
    if s != [] {
      assert (s + rest)[1..] == s[1..] + rest;
      CStringOfPrefix(s[1..], rest);
    } else {
      assert s + rest == rest;
    }
  }

  lemma CStringOfNulFree(s: Str)
    requires NulFree(s)
    ensures CString(s) == s
  {
    CStringOfPrefix(s, []);
    assert s + [] == s;
  }

  /** A field holds the source up to its first NUL, cut to one byte less than the field. */
  lemma DecodeEncoded(n: nat, s: Str)
    requires 0 < n
    ensures CString(Fixed(n, s)) == CString(s)[..Min(|CString(s)|, n - 1)]
  {
    var field, cut := Fixed(n, s), CString(s)[..Min(|CString(s)|, n - 1)];
    assert field == cut + field[|cut|..];
    CStringOfPrefix(cut, field[|cut|..]);
  }

  /** Round trip of a string through a field: exactly the NUL-free strings that leave room for a terminator. */
  lemma RoundTrip(n: nat, s: Str)
    requires 0 < n
    ensures CString(Fixed(n, s)) == s <==> NulFree(s) && |s| < n
  {
    DecodeEncoded(n, s);
    if NulFree(s) {
      CStringOfNulFree(s);
    }
  }

  /** The name in a rule is the task's, up to trailing NULs. */
  predicate NamesTask(name: Str, comm: Str) {
    && |comm| <= |name| && name[..|comm|] == comm
    && forall i | |comm| <= i < |name| :: name[i] == 0
  }

  /** Validated names (under 16 bytes) have the key of a task exactly when they name it; for names without NUL that is
      equality. */
  lemma CommKeysSeparateNames(name: Str, comm: Str)
    requires NulFree(comm) && |name| < MAX_COMM_LEN && |comm| < MAX_COMM_LEN
    ensures CommKeyOf(name) == CommKeyOf(comm) <==> NamesTask(name, comm)
    ensures NulFree(name) ==> (NamesTask(name, comm) <==> name == comm)
  {
    var a, b := CommKeyOf(name), CommKeyOf(comm);
    if a == b {
      forall i | 0 <= i < 16
        ensures (if i < |name| then name[i] else 0) == (if i < |comm| then comm[i] else 0)
      {
        assert a[i] == b[i];
      }
      assert comm != [] ==> comm[|comm| - 1] != 0;
    } else {
      var i :| 0 <= i < 16 && a[i] != b[i];
      assert |comm| <= |name| ==> forall j | 0 <= j < |comm| :: name[..|comm|][j] == name[j];
    }
    if NamesTask(name, comm) && NulFree(name) {
      assert name != [] ==> name[|name| - 1] != 0;
      assert name[..|name|] == name;
    }
  }

  /** The find and replace bytes the kernel will compare and store. */
  predicate CarriesText(p: Policy, find: Str, replace: Str) {
    && p.textLen <= MAX_TEXT_LEN
    && p.find[..p.textLen] == find
    && p.replace[..p.textLen] == replace
  }

  /** Text fidelity for every pair of equally long texts: up to 63 bytes survive; 64 bytes survive only when
      the byte that is dropped is the zero that stands in its place anyway; longer texts never do. */
  lemma TextFidelity(action: byte, path: Str, find: Str, replace: Str)
    requires |find| == |replace|
    ensures CarriesText(PolicyOf(action, path, find, replace), find, replace) <==>
            |find| < MAX_TEXT_LEN || (|find| == MAX_TEXT_LEN && find[63] == 0 && replace[63] == 0)
  {
    var p := PolicyOf(action, path, find, replace);
    if |find| < MAX_TEXT_LEN {
      assert p.find[..|find|] == find && p.replace[..|find|] == replace;
    } else {
      assert p.find[63] == 0 && p.replace[63] == 0;
      assert p.find[..64] == find[..63] + [0] && p.replace[..64] == replace[..63] + [0];
      if |find| == MAX_TEXT_LEN {
        assert find == find[..63] + [find[63]] && replace == replace[..63] + [replace[63]];
      }
    }
  }

  /** A pair of 64-byte texts that passes validation, keeps its length of 64 and loses its last byte. */
  lemma TextLosesLastByteAt64(path: Str)
    ensures var find: Str := seq(64, i => 97);
            var replace: Str := seq(64, i => 98);
            var p := PolicyOf(ACTION_REWRITE, path, find, replace);
            p.textLen == 64 && !CarriesText(p, find, replace) && p.find[63] == 0 != find[63]
  {
    TextFidelity(ACTION_REWRITE, path, seq(64, i => 97), seq(64, i => 98));
  }

  /** The meaning of the kernel's path comparison: two equal, non-empty, terminated C strings. */
  predicate PathMatches(target: Field, candidate: Field) {
    CString(target) == CString(candidate) && 0 < |CString(target)| < MAX_PATH_LEN
  }

  /** `path_matches`, byte by byte. */
  method PathMatchesLoop(policy: Policy, candidate: Field) returns (matches: bool)
    ensures matches <==> PathMatches(policy.targetPath, candidate)
  {
    var target := policy.targetPath;
    if target[0] == 0 || candidate[0] == 0 {
      return false;
    }
    for i := 0 to MAX_PATH_LEN
      invariant target[..i] == candidate[..i]
      invariant |CString(target)| >= i && |CString(candidate)| >= i
      invariant 0 < |CString(target)|
    {
      var a, b := CString(target), CString(candidate);
      assert |a| > i ==> a[i] == target[i];
      assert |b| > i ==> b[i] == candidate[i];
      if target[i] != candidate[i] {
        return false;
      }
      if target[i] == 0 {
        return true;
      }
    }
    assert |CString(target)| == 64;
    return false;
  }

  /** Exact meaning of comparing an encoded target with a user path cut to 63 bytes and a NUL. */
  lemma PathEncoding(target: Str, userPath: Str)
    requires NulFree(userPath)
    ensures var t := CString(target);
            PathMatches(Fixed(64, target), Fixed(64, userPath)) <==>
            t != [] && t[..Min(|t|, 63)] == userPath[..Min(|userPath|, 63)]
  {
    DecodeEncoded(64, target);
    DecodeEncoded(64, userPath);
    CStringOfNulFree(userPath);
  }

  lemma CutEqualsShort(u: Str, s: Str)
    requires |s| <= 62
    ensures u[..Min(|u|, 63)] == s[..Min(|s|, 63)] <==> u == s
  {
    assert u[..Min(|u|, 63)] == s ==> |u| == |s|;
  }

  /** The comparison tells the target from every other path. */
  ghost predicate ComparesExactly(target: Str) {
    forall u: Str | NulFree(u) :: PathMatches(Fixed(64, target), Fixed(64, u)) <==> u == target
  }

  /** For a target of more than 62 bytes a longer path matches; for one with a NUL inside, its front does. */
  lemma OtherPathMatches(target: Str) returns (other: Str)
    requires target != [] && target[0] != 0 && !(NulFree(target) && |target| <= 62)
    ensures NulFree(other) && other != target && PathMatches(Fixed(64, target), Fixed(64, other))
  {
    if NulFree(target) {
      CStringOfNulFree(target);
      other := target + [1];
      assert other[..63] == target[..63];
    } else {
      other := CString(target);
    }
    PathEncoding(target, other);
  }

  /** The comparison is string equality, whatever path the user passes, exactly for NUL-free targets of at most 62
      bytes, and for targets that begin with a NUL, which nothing matches. */
  lemma {:induction false} PathEqualityIsExact(target: Str)
    ensures ComparesExactly(target) <==>
            target != [] && (target[0] == 0 || (NulFree(target) && |target| <= 62))
  {
    if target == [] {
      PathEncoding(target, []);
    } else if target[0] == 0 {
      forall u: Str | NulFree(u)
        ensures PathMatches(Fixed(64, target), Fixed(64, u)) <==> u == target
      {
        PathEncoding(target, u);
      }
    } else if NulFree(target) && |target| <= 62 {
      CStringOfNulFree(target);
      forall u: Str | NulFree(u)
        ensures PathMatches(Fixed(64, target), Fixed(64, u)) <==> u == target
      {
        PathEncoding(target, u);
        CutEqualsShort(u, target);
      }
    } else {
      var other := OtherPathMatches(target);
    }
  }
}
