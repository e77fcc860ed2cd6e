/** Recognition of the two LINE text commands: `使用<id>` registers the sender
    on a machine and `取衣<id>` releases it (index.js:103-109, 132-136). */
module Commands {
  import opened JsString

  const UsePrefix: string := "使用"
  const PickupPrefix: string := "取衣"

  /** What a text message asks for. The `Missing` cases are a recognised
      prefix followed by nothing but whitespace. */
  datatype Command =
    | Use(id: string)
    | Pickup(id: string)
    | UseMissingId
    | PickupMissingId
    | Unrecognised

  /** Trims the text, matches a prefix (使用 first, then 取衣), removes it with
      `replace` and trims what is left; an empty remainder is the usage-hint case. */
  function Parse(text: string): (c: Command)
    ensures (c.Use? || c.Pickup?) ==> c.id != [] && IsTrimmed(c.id)
    ensures c.Use? || c.UseMissingId? <==> StartsWith(Trim(text), UsePrefix)
    ensures c.Unrecognised? <==>
              !StartsWith(Trim(text), UsePrefix) && !StartsWith(Trim(text), PickupPrefix)
  {
    var t := Trim(text);
    if StartsWith(t, UsePrefix) then
      var id := Trim(ReplaceFirst(t, UsePrefix, ""));
      if id == "" then UseMissingId else Use(id)
    else if StartsWith(t, PickupPrefix) then
      var id := Trim(ReplaceFirst(t, PickupPrefix, ""));
      if id == "" then PickupMissingId else Pickup(id)
    else
      Unrecognised
  }

  /** Trimming a command text leaves the prefix, the gap and the id. */
  lemma TrimCommandText(prefix: string, a: string, gap: string, id: string, b: string)
    requires prefix != [] && IsTrimmed(prefix)
    requires AllWhitespace(a) && AllWhitespace(gap) && AllWhitespace(b)
    requires id != [] && IsTrimmed(id)
    ensures Trim(a + prefix + gap + id + b) == prefix + gap + id
  {
    var m := prefix + gap + id;
    assert a + prefix + gap + id + b == a + m + b;
    assert m[0] == prefix[0];
    assert m[|m| - 1] == id[|id| - 1];
    TrimOfPadded(a, m, b);
  }

  /** Removing the prefix and trimming the rest yields the id. */
  lemma StripPrefix(prefix: string, gap: string, id: string)
    requires prefix != [] && IsTrimmed(prefix)
    requires AllWhitespace(gap)
    requires id != [] && IsTrimmed(id)
    ensures StartsWith(prefix + gap + id, prefix)
    ensures Trim(ReplaceFirst(prefix + gap + id, prefix, "")) == id
  {
    var m := prefix + gap + id;
    assert StartsWith(m, prefix) by {
      assert m[..|prefix|] == prefix;
    }
    assert m[|prefix|..] == gap + id;
    assert ReplaceFirst(m, prefix, "") == gap + id;
    assert gap + id + [] == gap + id;
    TrimOfPadded(gap, id, []);
  }

  /** With nothing but whitespace after the prefix, stripping it leaves nothing. */
  lemma StripBarePrefix(prefix: string, a: string, gap: string)
    requires prefix != [] && IsTrimmed(prefix)
    requires AllWhitespace(a) && AllWhitespace(gap)
    ensures var t := Trim(a + prefix + gap);
            StartsWith(t, prefix) && Trim(ReplaceFirst(t, prefix, "")) == []
  {
    TrimOfPadded(a, prefix, gap);
    assert prefix[|prefix|..] == [];
  }

  /** `使用 A1`, surrounded by any whitespace, is a registration for `A1`. */
  lemma UseCommandParses(a: string, gap: string, id: string, b: string)
    requires AllWhitespace(a) && AllWhitespace(gap) && AllWhitespace(b)
    requires id != [] && IsTrimmed(id)
    ensures Parse(a + UsePrefix + gap + id + b) == Use(id)
  {
    assert IsTrimmed(UsePrefix);
    TrimCommandText(UsePrefix, a, gap, id, b);
    StripPrefix(UsePrefix, gap, id);
  }

  /** `取衣 A1`, surrounded by any whitespace, is a release of `A1`. The 取衣
      branch is only reached because no text starting with 取衣 starts with 使用. */
  lemma PickupCommandParses(a: string, gap: string, id: string, b: string)
    requires AllWhitespace(a) && AllWhitespace(gap) && AllWhitespace(b)
    requires id != [] && IsTrimmed(id)
    ensures Parse(a + PickupPrefix + gap + id + b) == Pickup(id)
  {
    assert IsTrimmed(PickupPrefix);
    var text := a + PickupPrefix + gap + id + b;
    var t := PickupPrefix + gap + id;
    TrimCommandText(PickupPrefix, a, gap, id, b);
    assert Trim(text) == t;
    assert !StartsWith(t, UsePrefix) by {
      assert t[0] == PickupPrefix[0] != UsePrefix[0];
    }
    StripPrefix(PickupPrefix, gap, id);
  }

  /** A prefix followed only by whitespace asks for the usage hint. */
  lemma MissingIdParses(a: string, gap: string)
    requires AllWhitespace(a) && AllWhitespace(gap)
    ensures Parse(a + UsePrefix + gap) == UseMissingId
    ensures Parse(a + PickupPrefix + gap) == PickupMissingId
  {
    assert IsTrimmed(UsePrefix) && IsTrimmed(PickupPrefix);
    StripBarePrefix(UsePrefix, a, gap);
    StripBarePrefix(PickupPrefix, a, gap);
    var t := Trim(a + PickupPrefix + gap);
    assert t[0] == PickupPrefix[0];
  }

  /** The command as the messages suggest it, `使用` directly followed by the
      machine id, is read back as a registration for that machine. */
  lemma SuggestedUseParses(id: string)
    requires id != [] && IsTrimmed(id)
    ensures Parse(UsePrefix + id) == Use(id)
  {
    UseCommandParses([], [], id, []);
    assert [] + UsePrefix + [] + id + [] == UsePrefix + id;
  }

  /** Likewise `取衣` directly followed by the id is a release of that machine. */
  lemma SuggestedPickupParses(id: string)
    requires id != [] && IsTrimmed(id)
    ensures Parse(PickupPrefix + id) == Pickup(id)
  {
    PickupCommandParses([], [], id, []);
    assert [] + PickupPrefix + [] + id + [] == PickupPrefix + id;
  }
}
