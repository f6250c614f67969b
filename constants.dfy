/** The constants module (sdl2hl/constants.py): when imported, it walks the
    names of the native library in `dir(lib)` order and re-exports every
    integer-valued `SDL_*` or `SDL*` name with the prefix dropped, as a
    global of the module.

    `dir(lib)` together with `getattr(lib, name)` is a sequence of symbols;
    the module's `globals()` dictionary is the field of `Namespace`. */
module Constants {
  import opened Text
  import opened Wrappers

  /** What `getattr(lib, name)` yields: an int, or anything else (a
      function, a type, ...). */
  datatype LibValue = IntValue(n: int) | NonInt

  /** One name listed by `dir(lib)` with its value. */
  datatype Symbol = Symbol(name: string, value: LibValue)

  /** The global a symbol is exported under, if any: an int-valued name
      starting with "SDL_" loses those 4 characters; otherwise an int-valued
      name starting with "SDL" loses 3; anything else is not exported. */
  function ExportName(sym: Symbol): (r: Option<string>)
    ensures r.Some? <==> sym.value.IntValue? && StartsWith(sym.name, "SDL")
    ensures r.Some? && StartsWith(sym.name, "SDL_") ==> "SDL_" + r.value == sym.name
    ensures r.Some? && !StartsWith(sym.name, "SDL_") ==> "SDL" + r.value == sym.name
  {
    if StartsWith(sym.name, "SDL_") && sym.value.IntValue? then
      StartsWithShorter(sym.name, "SDL_", 3);
      StripPrefix(sym.name, "SDL_");
      Some(sym.name[4..])
    else if StartsWith(sym.name, "SDL") && sym.value.IntValue? then
      StripPrefix(sym.name, "SDL");
      Some(sym.name[3..])
    else
      None
  }

  /** The globals after the loop has walked `symbols`, starting from `g`:
      each exported symbol in turn binds its name to its value. */
  function Exported(symbols: seq<Symbol>, g: map<string, LibValue>): map<string, LibValue>
  {
    if symbols == [] then g
    else
      var before := Exported(symbols[..|symbols| - 1], g);
      var sym := symbols[|symbols| - 1];
      match ExportName(sym)
      case Some(key) => before[key := sym.value]
      case None => before
  }

  /** The module's global namespace. */
  class Namespace {
    var globals: map<string, LibValue>

    constructor (globals: map<string, LibValue>)
      ensures this.globals == globals
    {
      this.globals := globals;
    }

    /** The import-time loop: the `SDL_` test comes first, then the `SDL`
        one, each together with the int test. */
    method ExportAll(symbols: seq<Symbol>)
      modifies this
      ensures globals == Exported(symbols, old(globals))
    {
      for k := 0 to |symbols|
        invariant globals == Exported(symbols[..k], old(globals))
      {
        var sym := symbols[k];
        assert symbols[..k + 1][..k] == symbols[..k];
        if StartsWith(sym.name, "SDL_") && sym.value.IntValue? {
          globals := globals[sym.name[4..] := sym.value];
        } else if StartsWith(sym.name, "SDL") && sym.value.IntValue? {
          globals := globals[sym.name[3..] := sym.value];
        }
      }
      assert symbols[..|symbols|] == symbols;
    }
  }

  /** Which names end up bound: the ones bound before, and the export name
      of every exported symbol. */
  lemma {:induction false} ExportedKeys(symbols: seq<Symbol>, g: map<string, LibValue>)
    ensures Exported(symbols, g).Keys
         == g.Keys + set i | 0 <= i < |symbols| && ExportName(symbols[i]).Some? :: ExportName(symbols[i]).value
  {
    if symbols != [] {
      var init := symbols[..|symbols| - 1];
      ExportedKeys(init, g);
      var last := |symbols| - 1;
      var a := set i | 0 <= i < |init| && ExportName(init[i]).Some? :: ExportName(init[i]).value;
      var b := set i | 0 <= i < |symbols| && ExportName(symbols[i]).Some? :: ExportName(symbols[i]).value;
      assert forall i :: 0 <= i < |init| ==> init[i] == symbols[i];
      if ExportName(symbols[last]).Some? {
        assert b == a + {ExportName(symbols[last]).value};
      } else {
        assert b == a;
      }
    }
  }

  /** Later names win: the value bound under a name is that of the last
      symbol exported under it, and it is the native int. */
  lemma {:induction false} LastWins(symbols: seq<Symbol>, g: map<string, LibValue>, i: nat, key: string)
    requires i < |symbols| && ExportName(symbols[i]) == Some(key)
    requires forall j :: i < j < |symbols| ==> ExportName(symbols[j]) != Some(key)
    ensures key in Exported(symbols, g)
    ensures Exported(symbols, g)[key] == symbols[i].value
    ensures Exported(symbols, g)[key].IntValue?
  {
    var init := symbols[..|symbols| - 1];
    if i < |init| {
      assert forall j :: i < j < |init| ==> init[j] == symbols[j];
      assert init[i] == symbols[i];
      LastWins(init, g, i, key);
    }
  }

  /** A name no symbol is exported under keeps whatever binding it had. */
  lemma {:induction false} Untouched(symbols: seq<Symbol>, g: map<string, LibValue>, key: string)
    requires forall j :: 0 <= j < |symbols| ==> ExportName(symbols[j]) != Some(key)
    ensures key in Exported(symbols, g) <==> key in g
    ensures key in g ==> Exported(symbols, g)[key] == g[key]
  {
    if symbols != [] {
      var init := symbols[..|symbols| - 1];
      assert forall j :: 0 <= j < |init| ==> init[j] == symbols[j];
      Untouched(init, g, key);
    }
  }

  /** The two prefixes and the two tests on concrete names: "SDL_" is tried
      first, "SDL" catches the names without the underscore, and non-ints
      and other prefixes are skipped. */
  lemma ExportNameExamples()
    ensures ExportName(Symbol("SDL_INIT_VIDEO", IntValue(0x20))) == Some("INIT_VIDEO")
    ensures ExportName(Symbol("SDLK_a", IntValue(97))) == Some("K_a")
    ensures ExportName(Symbol("SDL_Init", NonInt)) == None
    ensures ExportName(Symbol("IMG_INIT_PNG", IntValue(2))) == None
  {
    assert StartsWith("SDL_INIT_VIDEO", "SDL_");
    assert "SDLK_a"[..4][3] == 'K';
    assert StartsWith("SDLK_a", "SDL");
    assert "IMG_INIT_PNG"[..3][0] == 'I';
  }
}
