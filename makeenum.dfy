/** The enum generator (bin/makeenum.py): writes the Python source of an
    IntEnum class whose members are the native names starting with a given
    prefix, renamed by dropping the prefix and lower-casing the rest.

    `dir(lib)` is the sequence of names passed in. */
module MakeEnum {
  import opened Text

  /** The first line of the generated class. */
  function Header(enumName: string): string
  {
    "class " + enumName + "(IntEnum):\n"
  }

  /** The member line for a name carrying the prefix. */
  function MemberLine(prefix: string, name: string): string
    requires StartsWith(name, prefix)
  {
    "    " + Lower(name[|prefix|..]) + " = lib." + name + "\n"
  }

  /** The member lines for the names that carry the prefix, in input order. */
  function MemberLines(prefix: string, names: seq<string>): string
  {
    if names == [] then ""
    else
      var name := names[|names| - 1];
      MemberLines(prefix, names[..|names| - 1])
        + (if StartsWith(name, prefix) then MemberLine(prefix, name) else "")
  }

  /** The names that carry the prefix, in input order. */
  function Matching(prefix: string, names: seq<string>): (m: seq<string>)
    ensures |m| <= |names|
    ensures forall n :: n in m ==> n in names && StartsWith(n, prefix)
    ensures forall n :: n in names && StartsWith(n, prefix) ==> n in m
  {
    if names == [] then []
    else
      var name := names[|names| - 1];
      Matching(prefix, names[..|names| - 1]) + (if StartsWith(name, prefix) then [name] else [])
  }

  /** make_enum: starts from the header and appends one member line per
      matching name while walking the names. */
  method MakeEnumSource(enumName: string, prefix: string, names: seq<string>) returns (src: string)
    ensures src == Header(enumName) + MemberLines(prefix, names)
    ensures StartsWith(src, Header(enumName))
  {
    src := Header(enumName);
    for k := 0 to |names|
      invariant src == Header(enumName) + MemberLines(prefix, names[..k])
    {
      var name := names[k];
      assert names[..k + 1][..k] == names[..k];
      if StartsWith(name, prefix) {
        src := src + "    " + Lower(name[|prefix|..]) + " = lib." + name + "\n";
      }
    }
    assert names[..|names|] == names;
    assert src[..|Header(enumName)|] == Header(enumName);
  }

  /** Walking two runs of names one after the other writes the lines of the
      first run, then those of the second. */
  lemma {:induction false} MemberLinesAppend(prefix: string, a: seq<string>, b: seq<string>)
    ensures MemberLines(prefix, a + b) == MemberLines(prefix, a) + MemberLines(prefix, b)
  {
    if b == [] {
      assert a + b == a;
    } else {
      var init := b[..|b| - 1];
      assert (a + b)[..|a + b| - 1] == a + init;
      MemberLinesAppend(prefix, a, init);
    }
  }

  /** With no name carrying the prefix, the output is the header alone. */
  lemma {:induction false} NoMatchHeaderOnly(prefix: string, names: seq<string>)
    requires forall n :: n in names ==> !StartsWith(n, prefix)
    ensures MemberLines(prefix, names) == ""
  {
    if names != [] {
      var init := names[..|names| - 1];
      assert forall n :: n in init ==> n in names;
      NoMatchHeaderOnly(prefix, init);
    }
  }

  /** A member line holds exactly one newline, at its end, when the name
      holds none. */
  lemma MemberLineNewlines(prefix: string, name: string)
    requires StartsWith(name, prefix) && '\n' !in name
    ensures Count(MemberLine(prefix, name), '\n') == 1
  {
    var rest := name[|prefix|..];
    assert forall c :: c in rest ==> c in name;
    CountZero(rest, '\n');
    LowerKeepsNewlines(rest);
    CountZero(name, '\n');
    CountAppend("    " + Lower(rest) + " = lib." + name, "\n", '\n');
    CountAppend("    " + Lower(rest) + " = lib.", name, '\n');
    CountAppend("    " + Lower(rest), " = lib.", '\n');
    CountAppend("    ", Lower(rest), '\n');
  }

  /** There is one member line per matching name: when no name holds a
      newline, the member lines hold exactly as many newlines as there are
      matching names. */
  lemma {:induction false} MemberLinesNewlines(prefix: string, names: seq<string>)
    requires forall n :: n in names ==> '\n' !in n
    ensures Count(MemberLines(prefix, names), '\n') == |Matching(prefix, names)|
  {
    if names != [] {
      var init, name := names[..|names| - 1], names[|names| - 1];
      assert forall n :: n in init ==> n in names;
      MemberLinesNewlines(prefix, init);
      var line := if StartsWith(name, prefix) then MemberLine(prefix, name) else "";
      CountAppend(MemberLines(prefix, init), line, '\n');
      if StartsWith(name, prefix) {
        MemberLineNewlines(prefix, name);
      }
    }
  }

  /** The generated source has one line for the header and one per matching
      name: with no newline in the inputs, it holds 1 + (number of matching
      names) newlines. */
  lemma EnumSourceNewlines(enumName: string, prefix: string, names: seq<string>)
    requires '\n' !in enumName
    requires forall n :: n in names ==> '\n' !in n
    ensures Count(Header(enumName) + MemberLines(prefix, names), '\n') == 1 + |Matching(prefix, names)|
  {
    CountZero(enumName, '\n');
    CountAppend("class " + enumName, "(IntEnum):\n", '\n');
    CountAppend("class ", enumName, '\n');
    CountAppend(Header(enumName), MemberLines(prefix, names), '\n');
    MemberLinesNewlines(prefix, names);
  }

  /** A concrete run: two of three names carry the prefix; the third is
      skipped and the others are renamed in order. */
  lemma MemberLinesExample()
    ensures MemberLines("K_", ["K_A", "X", "K_BC"]) == "    a = lib.K_A\n    bc = lib.K_BC\n"
  {
    var names := ["K_A", "X", "K_BC"];
    assert names[..2] == ["K_A", "X"] && names[..2][..1] == ["K_A"] && names[..2][..1][..0] == [];
    assert "K_A"[..2] == "K_" && "K_A"[2..] == "A";
    assert "K_BC"[..2] == "K_" && "K_BC"[2..] == "BC";
    assert Lower("A") == "a" by {
      assert "A"[1..] == "";
    }
    assert Lower("BC") == "bc" by {
      assert "BC"[1..] == "C" && "C"[1..] == "";
    }
    assert MemberLines("K_", ["K_A"]) == "    a = lib.K_A\n";
    assert MemberLines("K_", ["K_A", "X"]) == "    a = lib.K_A\n";
  }
}
