/**
 * The shell's tree of parameter types (clish/shell/shell_find_create_ptype.c):
 * a ptype is found by name and created on first mention; a later mention may
 * refine an existing one, field by field, with the arguments it supplies.
 *
 * The ptype tree is held as a map from name to ptype object. The method and
 * preprocess enumerations are carried as their ordinals.
 */
module ClishShell {
  import opened Wrappers

  /** The attributes of a clish_ptype_t, as a value. */
  datatype PTypeRecord = PTypeRecord(
    name: string,
    text: Option<string>,
    pattern: Option<string>,
    checkMethod: nat,
    preprocess: nat)

  /**
   * What clish_shell_find_create_ptype leaves in the ptype called `name`:
   * a fresh record from all the arguments when there was none; otherwise the
   * existing record, whose pattern, method and preprocess are replaced only
   * when a pattern is supplied and whose text is replaced only when a text is
   * supplied.
   */
  function Upsert(existing: Option<PTypeRecord>, name: string, text: Option<string>,
                  pattern: Option<string>, checkMethod: nat, preprocess: nat): (r: PTypeRecord)
    requires existing.Some? ==> existing.value.name == name
    ensures r.name == name
    ensures existing.None? ==> r == PTypeRecord(name, text, pattern, checkMethod, preprocess)
  {
    match existing
    case None => PTypeRecord(name, text, pattern, checkMethod, preprocess)
    case Some(e) =>
      var withPattern := if pattern.Some? then e.(pattern := pattern, checkMethod := checkMethod, preprocess := preprocess) else e;
      if text.Some? then withPattern.(text := text) else withPattern
  }

  /**
   * An existing ptype takes each supplied argument and keeps every field
   * whose argument is missing: the pattern group (pattern, method,
   * preprocess) follows the pattern argument, the text follows the text
   * argument, and the name never changes.
   */
  lemma UpsertExisting(e: PTypeRecord, text: Option<string>, pattern: Option<string>, checkMethod: nat, preprocess: nat)
    ensures var r := Upsert(Some(e), e.name, text, pattern, checkMethod, preprocess);
      && r.name == e.name
      && (r.pattern, r.checkMethod, r.preprocess) ==
         (if pattern.Some? then (pattern, checkMethod, preprocess) else (e.pattern, e.checkMethod, e.preprocess))
      && r.text == (if text.Some? then text else e.text)
  {
  }

  /** Mentioning a ptype again with the same arguments changes nothing more. */
  lemma UpsertIdempotent(existing: Option<PTypeRecord>, name: string, text: Option<string>,
                         pattern: Option<string>, checkMethod: nat, preprocess: nat)
    requires existing.Some? ==> existing.value.name == name
    ensures var once := Upsert(existing, name, text, pattern, checkMethod, preprocess);
      Upsert(Some(once), name, text, pattern, checkMethod, preprocess) == once
  {
  }

  /** A mention with neither a pattern nor a text leaves an existing ptype as it was. */
  lemma UpsertBareMention(e: PTypeRecord, checkMethod: nat, preprocess: nat)
    ensures Upsert(Some(e), e.name, None, None, checkMethod, preprocess) == e
  {
  }

  /**
   * A mention that supplies both a pattern and a text overrides every earlier
   * mention: only the name of the first mention survives.
   */
  lemma UpsertFullMentionWins(existing: Option<PTypeRecord>, name: string, text: Option<string>,
                              pattern: Option<string>, checkMethod: nat, preprocess: nat)
    requires existing.Some? ==> existing.value.name == name
    requires text.Some? && pattern.Some?
    ensures Upsert(existing, name, text, pattern, checkMethod, preprocess) == PTypeRecord(name, text, pattern, checkMethod, preprocess)
  {
  }

  /** clish_ptype_t, the fields that find-or-create touches. */
  class PType {
    const name: string
    var text: Option<string>
    var pattern: Option<string>
    var checkMethod: nat
    var preprocess: nat

    function Record(): PTypeRecord
      reads this
    {
      PTypeRecord(name, text, pattern, checkMethod, preprocess)
    }

    /** clish_ptype_new: a ptype built from all its attributes. */
    constructor (ptypeName: string, ptypeText: Option<string>, ptypePattern: Option<string>, ptypeMethod: nat, ptypePreprocess: nat)
      ensures Record() == PTypeRecord(ptypeName, ptypeText, ptypePattern, ptypeMethod, ptypePreprocess)
    {
      name := ptypeName;
      text := ptypeText;
      pattern := ptypePattern;
      checkMethod := ptypeMethod;
      preprocess := ptypePreprocess;
    }

    /** clish_ptype__set_pattern: the pattern together with the method that reads it. */
    method SetPattern(p: string, m: nat)
      modifies this`pattern, this`checkMethod
      ensures pattern == Some(p) && checkMethod == m
    {
      pattern := Some(p);
      checkMethod := m;
    }

    /** clish_ptype__set_preprocess. */
    method SetPreprocess(p: nat)
      modifies this`preprocess
      ensures preprocess == p
    {
      preprocess := p;
    }

    /** clish_ptype__set_text. */
    method SetText(t: string)
      modifies this`text
      ensures text == Some(t)
    {
      text := Some(t);
    }
  }

  /** clish_shell_t, reduced to its tree of ptypes. */
  class Shell {
    var ptypes: map<string, PType>

    /** Every ptype is filed under its own name. */
    ghost predicate Valid()
      reads this, ptypes.Values
    {
      forall n :: n in ptypes ==> ptypes[n].name == n
    }

    constructor ()
      ensures Valid() && ptypes == map[]
    {
      ptypes := map[];
    }

    /**
     * clish_shell_find_create_ptype: answers the ptype called `name`, never
     * None. An absent one is created from all the arguments and inserted; an
     * existing one is the very object answered, with no new one created, and
     * takes the supplied pattern group and text as Upsert says.
     */
    method FindCreatePType(name: string, text: Option<string>, pattern: Option<string>,
                           checkMethod: nat, preprocess: nat) returns (p: PType)
      requires Valid()
      modifies this, if name in ptypes then {ptypes[name]} else {}
      ensures Valid()
      ensures name in old(ptypes) ==> p == old(ptypes[name]) && ptypes == old(ptypes)
      ensures name !in old(ptypes) ==> fresh(p) && ptypes == old(ptypes)[name := p]
      ensures p.Record() == Upsert(if name in old(ptypes) then Some(old(ptypes[name].Record())) else None,
                                   name, text, pattern, checkMethod, preprocess)
    {
      if name !in ptypes {
        p := new PType(name, text, pattern, checkMethod, preprocess);
        ptypes := ptypes[name := p];
      } else {
        p := ptypes[name];
        if pattern.Some? {
          p.SetPattern(pattern.value, checkMethod);
          p.SetPreprocess(preprocess);
        }
        if text.Some? {
          p.SetText(text.value);
        }
      }
    }
  }
}
