/** include/fileguard/file_id.hpp and src/path_resolver.cpp: inode identities and
    their rendering back to text. */
module FileIdentity {
  import opened Common

  datatype FileId = FileId(major: u32, minor: u32, ino: u64) {
    predicate Valid() {
      ino != 0
    }

    // std::to_string of the three numbers, joined by colons.
    function ToText(): string {
      Decimal(major) + ":" + Decimal(minor) + ":" + Decimal(ino)
    }
  }

  const NO_FILE := FileId(0, 0, 0)

  const DIGITS := "0123456789"

  function Decimal(n: nat): (s: string)
    ensures |s| > 0 && AllDigits(s)
  {
    if n < 10 then [DIGITS[n]] else Decimal(n / 10) + [DIGITS[n % 10]]
  }

  predicate AllDigits(s: string) {
    forall i :: 0 <= i < |s| ==> '0' <= s[i] <= '9'
  }

  // What a text of digits stands for.
  function ValueOf(s: string): int
    requires AllDigits(s)
  {
    if s == "" then 0 else 10 * ValueOf(s[..|s| - 1]) + (Last(s) as int - '0' as int)
  }

  /** Decimal is decimal notation: the digits have the value of the number, and there is no
      leading zero. */
  lemma {:induction false} DecimalMeans(n: nat)
    ensures ValueOf(Decimal(n)) == n
    ensures Decimal(n)[0] == '0' ==> Decimal(n) == "0"
  {
    if n >= 10 {
      DecimalMeans(n / 10);
      assert Decimal(n)[..|Decimal(n)| - 1] == Decimal(n / 10);
    } else {
      assert Decimal(n)[..0] == "";
    }
  }

  /** The text of an identity holds major, minor and inode number, in this order. */
  lemma ToTextMeans(id: FileId)
    ensures exists x, y, z ::
              && id.ToText() == x + ":" + y + ":" + z
              && AllDigits(x) && AllDigits(y) && AllDigits(z)
              && ValueOf(x) == id.major && ValueOf(y) == id.minor && ValueOf(z) == id.ino
  {
    DecimalMeans(id.major);
    DecimalMeans(id.minor);
    DecimalMeans(id.ino);
    var x, y, z := Decimal(id.major), Decimal(id.minor), Decimal(id.ino);
    assert id.ToText() == x + ":" + y + ":" + z;
  }

  lemma {:induction false} DecimalInjective(a: nat, b: nat)
    requires Decimal(a) == Decimal(b)
    ensures a == b
  {
    var x, y := Decimal(a), Decimal(b);
    assert Last(x) == DIGITS[a % 10] && Last(y) == DIGITS[b % 10];
    assert a % 10 == b % 10;
    if a >= 10 {
      assert |x| > 1;
      assert x[..|x| - 1] == Decimal(a / 10);
      assert b >= 10;
      assert y[..|y| - 1] == Decimal(b / 10);
      DecimalInjective(a / 10, b / 10);
    }
  }

  // A colon cannot hide inside a number, so the first colon ends it.
  lemma FieldsSplit(x: string, u: string, y: string, v: string)
    requires AllDigits(x) && AllDigits(y)
    requires x + ":" + u == y + ":" + v
    ensures x == y && u == v
  {
    var s, t := x + ":" + u, y + ":" + v;
    assert s[|x|] == ':' && t[|y|] == ':';
    assert forall i :: 0 <= i < |x| ==> s[i] == x[i];
    assert forall i :: 0 <= i < |y| ==> t[i] == y[i];
    assert |x| == |y|;
    assert x == s[..|x|] && y == t[..|y|];
    assert u == s[|x| + 1..] && v == t[|y| + 1..];
  }

  lemma ThreeFieldsSplit(x: string, y: string, z: string, x': string, y': string, z': string)
    requires AllDigits(x) && AllDigits(y) && AllDigits(x') && AllDigits(y')
    requires x + ":" + y + ":" + z == x' + ":" + y' + ":" + z'
    ensures x == x' && y == y' && z == z'
  {
    assert x + ":" + (y + ":" + z) == x + ":" + y + ":" + z;
    assert x' + ":" + (y' + ":" + z') == x' + ":" + y' + ":" + z';
    FieldsSplit(x, y + ":" + z, x', y' + ":" + z');
    FieldsSplit(y, z, y', z');
  }

  /** Two identities that render alike are the same identity. */
  lemma ToTextInjective(a: FileId, b: FileId)
    requires a.ToText() == b.ToText()
    ensures a == b
  {
    ThreeFieldsSplit(Decimal(a.major), Decimal(a.minor), Decimal(a.ino), Decimal(b.major), Decimal(b.minor), Decimal(b.ino));
    DecimalInjective(a.major, b.major);
    DecimalInjective(a.minor, b.minor);
    DecimalInjective(a.ino, b.ino);
  }

  /** PathResolver::resolve on the current table. */
  function Resolve(table: map<FileId, string>, id: FileId): string {
    if id in table then table[id] else id.ToText()
  }

  /** The reverse table. It is filled once per policy and shared afterwards. */
  class PathResolver {
    var table: map<FileId, string>

    constructor ()
      ensures table == map[]
    {
      table := map[];
    }

    // operator[] assignment: the last path added for an identity wins.
    method Add(id: FileId, path: string)
      modifies this
      ensures table == old(table)[id := path]
    {
      table := table[id := path];
    }

    method ResolveId(id: FileId) returns (text: string)
      ensures text == Resolve(table, id)
      ensures id in table ==> text == table[id]
      ensures id !in table ==> text == id.ToText()
      ensures id !in table ==> forall other: FileId :: other.ToText() == text ==> other == id
    {
      if id in table {
        return table[id];
      }
      forall other: FileId | other.ToText() == id.ToText() ensures other == id {
        ToTextInjective(other, id);
      }
      return id.ToText();
    }
  }

  // No rendered identity starts with a slash.
  ghost predicate NoTextCollision(table: map<FileId, string>) {
    forall known, id: FileId :: known in table && id !in table ==> table[known] != id.ToText()
  }

  ghost predicate InjectiveTable(table: map<FileId, string>) {
    forall a, b :: a in table && b in table && table[a] == table[b] ==> a == b
  }

  ghost predicate InjectiveOnAllIds(table: map<FileId, string>) {
    forall a: FileId, b: FileId :: Resolve(table, a) == Resolve(table, b) ==> a == b
  }

  /** Rendering is unambiguous over every identity there is exactly when the table
      itself is injective and none of its paths imitates a rendered unknown identity. */
  lemma UnambiguousIff(table: map<FileId, string>)
    ensures InjectiveOnAllIds(table) <==> InjectiveTable(table) && NoTextCollision(table)
  {
    if InjectiveTable(table) && NoTextCollision(table) {
      forall a: FileId, b: FileId | Resolve(table, a) == Resolve(table, b) ensures a == b {
        if a !in table && b !in table {
          ToTextInjective(a, b);
        }
      }
    }
    if InjectiveOnAllIds(table) {
      forall a, b | a in table && b in table && table[a] == table[b] ensures a == b {
        assert Resolve(table, a) == Resolve(table, b);
      }
      forall known, id: FileId | known in table && id !in table ensures table[known] != id.ToText() {
        assert Resolve(table, known) == table[known] && Resolve(table, id) == id.ToText();
      }
    }
  }

  lemma RenderedIsNotAbsolute(id: FileId)
    ensures |id.ToText()| > 0 && id.ToText()[0] != '/'
  {
    assert id.ToText()[0] == Decimal(id.major)[0];
  }
}
