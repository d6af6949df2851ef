// Bytes and strings of them.

module ByteStrings {
  type Byte = b: nat | b < 256

  // A string that ends at its first zero byte
  type CString = s: seq<Byte> | 0 !in s

  // ngx_tolower
  function ToLower(b: Byte): Byte {
    if 'A' as int <= b <= 'Z' as int then b + 32 else b
  }

  // ngx_strlow
  function Lower(s: seq<Byte>): (t: seq<Byte>)
    ensures |t| == |s|
  {
    seq(|s|, i requires 0 <= i < |s| => ToLower(s[i]))
  }

  predicate Capital(b: Byte) {
    b < 128 && b as char in "ABCDEFGHIJKLMNOPQRSTUVWXYZ"
  }

  // The string t is s with the small letters of its capitals.
  ghost predicate Lowers(s: seq<Byte>, t: seq<Byte>) {
    && |t| == |s| && (forall i :: 0 <= i < |t| ==> !Capital(t[i]))
    && forall i :: 0 <= i < |t| ==> t[i] == if Capital(s[i]) then s[i] + 32 else s[i]
  }

  lemma LowersIs(s: seq<Byte>, t: seq<Byte>)
    ensures Lowers(s, t) <==> t == Lower(s)
  {
    hide Capital;
    forall b: Byte
      ensures ToLower(b) == (if Capital(b) then b + 32 else b) && !Capital(ToLower(b))
    {
      CapitalIs(b);
      CapitalIs(ToLower(b));
    }
    var u := Lower(s);
    assert forall i :: 0 <= i < |s| ==> u[i] == ToLower(s[i]);
    if Lowers(s, t) {
      assert forall i :: 0 <= i < |s| ==> t[i] == u[i];
    }
  }

  lemma CapitalIs(b: Byte)
    ensures Capital(b) <==> 'A' as int <= b <= 'Z' as int
  {
  }

  lemma LowerAppend(s: seq<Byte>, t: seq<Byte>)
    ensures Lower(s + t) == Lower(s) + Lower(t)
  {
  }

  lemma Sixteen(k: nat)
    requires k < 16
    ensures k == 0 || k == 1 || k == 2 || k == 3 || k == 4 || k == 5 || k == 6 || k == 7 ||
            k == 8 || k == 9 || k == 10 || k == 11 || k == 12 || k == 13 || k == 14 || k == 15
  {
  }
}
