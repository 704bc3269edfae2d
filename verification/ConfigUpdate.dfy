// Setting entries of a configuration in place: find the object's span in the blanked text,
// splice the new values into the commented text.

module ConfigUpdate {
  import opened Results
  import opened Texts
  import opened JsonText
  import opened JsoncBlanking
  import opened ConfigScan
  import opened TextEdits

  datatype Update = Update(key: Text, value: Text)

  // ---------------------------------------------------------------------------
  // Specification
  // ---------------------------------------------------------------------------

  /** `props.find(p => p.key === key)`. */
  function FindProp(ps: seq<PropSpan>, key: Text): Option<PropSpan> {
    if ps == [] then None
    else if ps[0].key == key then Some(ps[0])
    else FindProp(ps[1..], key)
  }

  function FoundEdits(ps: seq<PropSpan>, us: seq<Update>): seq<Edit> {
    if us == [] then []
    else (match FindProp(ps, us[0].key)
          case Some(p) => [Edit(p.start, p.end, Quote(us[0].value))]
          case None => [])
         + FoundEdits(ps, us[1..])
  }

  function Missing(ps: seq<PropSpan>, us: seq<Update>): seq<Update> {
    if us == [] then []
    else (if FindProp(ps, us[0].key).None? then [us[0]] else []) + Missing(ps, us[1..])
  }

  function MemberText(u: Update): Text {
    Quote(u.key) + [COLON, SPACE] + Quote(u.value)
  }

  function MembersText(us: seq<Update>): Text {
    if us == [] then []
    else if |us| == 1 then MemberText(us[0])
    else MemberText(us[0]) + [COMMA, SPACE] + MembersText(us[1..])
  }

  function InsertionText(o: ObjectSpan, missing: seq<Update>): Text {
    [SPACE] + MembersText(missing) + (if o.props != [] then [COMMA] else [SPACE])
  }

  function ObjectEdits(o: ObjectSpan, us: seq<Update>): seq<Edit> {
    var missing := Missing(o.props, us);
    FoundEdits(o.props, us)
    + (if missing == [] then [] else [Edit(o.open + 1, o.open + 1, InsertionText(o, missing))])
  }

  function NewPropertyText(root: ObjectSpan, key: Text, us: seq<Update>): Text {
    (if root.props != [] then [COMMA] else [])
    + [NEWLINE, SPACE, SPACE] + Quote(key) + [COLON, SPACE, LBRACE, SPACE]
    + MembersText(us) + [SPACE, RBRACE, NEWLINE]
  }

  /** The edits of updateConfigStringMap, found in the blanked text `t`. */
  function StringMapEdits(t: Text, key: Text, us: seq<Update>): Outcome<seq<Edit>> {
    match ObjectAt(t, 0)
    case Err(e) => Err(e)
    case Ok(root) =>
      match FindProp(root.props, key)
      case None => Ok([Edit(root.close, root.close, NewPropertyText(root, key, us))])
      case Some(p) => match ObjectAt(t, p.start) case Err(e) => Err(e) case Ok(o) => Ok(ObjectEdits(o, us))
  }

  const ENV: Text := [0x65, 0x6E, 0x76]
  const CORE: Text := [0x63, 0x6F, 0x72, 0x65]

  /** The edits of updateConfigCoreEnv: those of the object at `env.core`. */
  function CoreEnvEdits(t: Text, us: seq<Update>): Outcome<seq<Edit>> {
    match ObjectAt(t, 0)
    case Err(e) => Err(e)
    case Ok(root) =>
      match FindProp(root.props, ENV)
      case None => Err(MissingEnv)
      case Some(p) =>
        match ObjectAt(t, p.start)
        case Err(e) => Err(e)
        case Ok(env) =>
          match FindProp(env.props, CORE)
          case None => Err(MissingCore)
          case Some(q) => match ObjectAt(t, q.start) case Err(e) => Err(e) case Ok(o) => Ok(ObjectEdits(o, us))
  }

  function Edited(raw: Text, edits: Outcome<seq<Edit>>): Outcome<Text> {
    match edits case Err(e) => Err(e) case Ok(es) => Ok(ApplyEdits(raw, SortDescending(es)))
  }

  function UpdateStringMap(raw: Text, key: Text, us: seq<Update>): Outcome<Text> {
    if !Lexes(raw, 0) then Err(UnterminatedString)
    else Edited(raw, StringMapEdits(StripText(raw, 0), key, us))
  }

  function UpdateCoreEnv(raw: Text, us: seq<Update>): Outcome<Text> {
    if !Lexes(raw, 0) then Err(UnterminatedString)
    else Edited(raw, CoreEnvEdits(StripText(raw, 0), us))
  }

  // ---------------------------------------------------------------------------
  // The loops
  // ---------------------------------------------------------------------------

  method Find(ps: seq<PropSpan>, key: Text) returns (r: Option<PropSpan>)
    ensures r == FindProp(ps, key)
  {
    for i := 0 to |ps|
      invariant FindProp(ps, key) == FindProp(ps[i..], key)
    {
      if ps[i].key == key {
        return Some(ps[i]);
      }
    }
    return None;
  }

  /** Pushes an edit for every update: its property's span, or one insertion behind the brace for the rest. */
  method CollectEdits(o: ObjectSpan, us: seq<Update>) returns (edits: seq<Edit>)
    ensures edits == ObjectEdits(o, us)
  {
    hide FindProp, Quote;
    edits := [];
    var missing: seq<Update> := [];
    for i := 0 to |us|
      invariant edits + FoundEdits(o.props, us[i..]) == FoundEdits(o.props, us)
      invariant missing + Missing(o.props, us[i..]) == Missing(o.props, us)
    {
      assert us[i..][0] == us[i] && us[i..][1..] == us[i + 1..];
      var prop := Find(o.props, us[i].key);
      match prop {
        case Some(p) => edits := edits + [Edit(p.start, p.end, Quote(us[i].value))];
        case None => missing := missing + [us[i]];
      }
    }
    assert us[|us|..] == [];
    assert edits == FoundEdits(o.props, us) && missing == Missing(o.props, us);
    assert edits + [] == edits;
    if missing != [] {
      edits := edits + [Edit(o.open + 1, o.open + 1, InsertionText(o, missing))];
    }
  }

  method MakeEdits(raw: Text, edits: seq<Edit>) returns (out: Text)
    ensures out == ApplyEdits(raw, SortDescending(edits))
  {
    var sorted := SortDescending(edits);
    out := raw;
    for i := 0 to |sorted|
      invariant ApplyEdits(out, sorted[i..]) == ApplyEdits(raw, sorted)
    {
      var e := sorted[i];
      out := (if e.start <= |out| then out[..e.start] else out) + e.text + (if e.end <= |out| then out[e.end..] else []);
    }
  }

  method UpdateConfigStringMap(raw: Text, key: Text, updates: seq<Update>) returns (r: Outcome<Text>)
    ensures r == UpdateStringMap(raw, key, updates)
  {
    var stripped := StripJsonComments(raw);
    if stripped.Err? {
      return Err(stripped.error);
    }
    var root := ObjectProps(stripped.value, 0);
    if root.Err? {
      return Err(root.error);
    }
    var edits: seq<Edit>;
    var property := Find(root.value.props, key);
    match property {
      case Some(p) =>
        var obj := ObjectProps(stripped.value, p.start);
        if obj.Err? {
          return Err(obj.error);
        }
        edits := CollectEdits(obj.value, updates);
      case None =>
        edits := [Edit(root.value.close, root.value.close, NewPropertyText(root.value, key, updates))];
    }
    var out := MakeEdits(raw, edits);
    return Ok(out);
  }

  method UpdateConfigCoreEnv(raw: Text, updates: seq<Update>) returns (r: Outcome<Text>)
    ensures r == UpdateCoreEnv(raw, updates)
  {
    var stripped := StripJsonComments(raw);
    if stripped.Err? {
      return Err(stripped.error);
    }
    var root := ObjectProps(stripped.value, 0);
    if root.Err? {
      return Err(root.error);
    }
    var envProp := Find(root.value.props, ENV);
    if envProp.None? {
      return Err(MissingEnv);
    }
    var env := ObjectProps(stripped.value, envProp.value.start);
    if env.Err? {
      return Err(env.error);
    }
    var coreProp := Find(env.value.props, CORE);
    if coreProp.None? {
      return Err(MissingCore);
    }
    var core := ObjectProps(stripped.value, coreProp.value.start);
    if core.Err? {
      return Err(core.error);
    }
    var edits := CollectEdits(core.value, updates);
    var out := MakeEdits(raw, edits);
    return Ok(out);
  }
}
