/** The configuration object: what is kept in memory, saved to a file and loaded from it. */
module AutopilotManagerConfig {
  import opened Options
  import opened ConfigKeys
  import opened ConfigText
  import opened ConfigKeySearch
  import opened ConfigFile

  /** How loading ends: a missing file, a conversion that throws, or the end of the file. */
  datatype LoadStatus = CannotOpen | Malformed | Loaded

  class AutopilotManagerConfig {
    /** One entry per field, under the key of the field. */
    var fields: Config

    ghost predicate Valid()
      reads this
    {
      WellTyped(fields)
    }

    constructor ()
      ensures Valid()
      ensures forall k: Key :: k in fields && fields[k] == Initial(KindOf(k))
    {
      fields := map k | k in Keys() :: Initial(KindOf(k));
      new;
      forall k: Key ensures k in Keys() {
        KeyOrder(k);
      }
    }

    /** Writes a temporary file and renames it over the target, which held `previous`. */
    method WriteToFile(canOpen: bool, canRename: bool, previous: Option<string>)
      returns (ok: bool, file: Option<string>)
      requires Valid()
      ensures ok <==> canOpen && canRename
      ensures file == if ok then Some(FileText(fields)) else previous
    {
      if !canOpen {
        return false, previous;
      }
      var text := Header() + "\n";
      var i := 0;
      while i < KEY_COUNT
        invariant i <= KEY_COUNT
        invariant text + TextFrom(fields, i) == FileText(fields)
      {
        var line := LineOf(fields, KeyAt(i)) + "\n";
        ghost var rest := TextFrom(fields, i + 1);
        assert TextFrom(fields, i) == line + rest;
        assert text + (line + rest) == (text + line) + rest;
        text := text + line;
        i := i + 1;
      }
      assert text + "" == text;
      ok := canRename;
      file := if canRename then Some(text) else previous;
    }

    /** Reads line by line and tries every key on every line. */
    method InitFromFile(file: Option<string>) returns (status: LoadStatus)
      requires Valid()
      modifies this
      ensures Valid()
      ensures file.None? ==> status == CannotOpen && fields == old(fields)
      ensures file.Some? ==> status != CannotOpen
                             && Load(old(fields), file.value) == (fields, status == Loaded)
    {
      hide Name, Keys, Parse, ValueText, Contains;
      if file.None? {
        return CannotOpen;
      }
      var rest := file.value;
      while rest != ""
        invariant Valid()
        invariant Load(old(fields), file.value) == Load(fields, rest)
        decreases |rest|
      {
        var line, tail := FirstLine(rest);
        ghost var before := fields;
        var i := 0;
        while i < KEY_COUNT
          invariant i <= KEY_COUNT
          invariant Valid()
          invariant ReadKeys(before, line, 0) == ReadKeys(fields, line, i)
        {
          var k := KeyAt(i);
          if Contains(line, Name(k)) {
            var value := Parse(KindOf(k), ValueText(line));
            if value.None? {
              return Malformed;
            }
            fields := fields[k := value.value];
          }
          i := i + 1;
        }
        rest := tail;
      }
      status := Loaded;
    }
  }

  function Initial(kind: Kind): (v: Value)
    ensures Fits(kind, v)
  {
    match kind
    case Flag => Number(0)
    case Integer => Number(0)
    case Double => Decimal(0.0)
    case Text => Words("")
  }

  /** One std::getline on what is left of a file. */
  method FirstLine(s: string) returns (line: string, rest: string)
    requires s != ""
    ensures Lines(s) == [line] + Lines(rest) && |rest| < |s|
  {
    match Find(s, "\n", 0) {
      case None =>
        line, rest := s, "";
      case Some(o) =>
        line, rest := s[..o], s[o + 1..];
    }
  }
}
