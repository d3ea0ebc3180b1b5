/** The identifiers that claims are about. Proved here is that their text tells them
    apart and that names are chosen by a total order. */
module Identifiers {
  import opened Ordering
  import opened Text

  datatype Kind = User | Host | Address | Domain | File

  datatype Form = Sid | Uid | Email | Name | Local | Mac | Ip | Hash

  datatype Identifier = Identifier(kind: Kind, form: Form, value: string)

  datatype Strength = Strong | Weak

  /** Prefixes of names that mean another account on every host. */
  const AUTHORITIES: seq<string> :=
    ["nt authority", "nt service", "builtin", "window manager", "font driver host", "iis apppool", "workgroup", "."]

  predicate IsStrong(id: Identifier) {
    match (id.kind, id.form)
    case (User, Sid) => "s-1-5-21-" <= id.value || "s-1-12-1-" <= id.value
    case (User, Name) =>
      (match IndexOf(id.value, '\\')
       case Some(at) => at + 1 < |id.value| && id.value[..at] !in AUTHORITIES
       case None =>
         match IndexOf(id.value, '@')
         case Some(at) => at > 0 && at + 1 < |id.value|
         case None => false)
    case (Host, Name) => '.' in id.value
    case (Host, Mac) => false
    case _ => true
  }

  function StrengthOf(id: Identifier): Strength { if IsStrong(id) then Strong else Weak }

  /** Where an identifier stands among those of an entity, the strongest first. */
  function Rank(id: Identifier): nat {
    (if StrengthOf(id) == Weak then 10 else 0)
    + match id.form
      case Sid => 0
      case Uid => 1
      case Email => 2
      case Name => 3
      case Local => 4
      case Mac => 5
      case Ip => 6
      case Hash => 6
  }

  function KindName(kind: Kind): (r: string)
    ensures ':' !in r
  {
    match kind
    case User => "user"
    case Host => "host"
    case Address => "address"
    case Domain => "domain"
    case File => "file"
  }

  function FormName(form: Form): (r: string)
    ensures ':' !in r
  {
    match form
    case Sid => "sid"
    case Uid => "uid"
    case Email => "email"
    case Name => "name"
    case Local => "local"
    case Mac => "mac"
    case Ip => "ip"
    case Hash => "hash"
  }

  /** An identifier as it is written. */
  function TextOf(id: Identifier): string { KindName(id.kind) + ":" + FormName(id.form) + ":" + id.value }

  lemma ColonEnds(a: string, b: string, c: string, d: string)
    requires ':' !in a && ':' !in c && a + ":" + b == c + ":" + d
    ensures a == c && b == d
  {
    var s, t := a + ":" + b, c + ":" + d;
    assert s[|a|] == ':' && t[|c|] == ':';
    assert forall i :: 0 <= i < |a| ==> s[i] == a[i];
    assert forall i :: 0 <= i < |c| ==> t[i] == c[i];
    assert forall i :: 0 <= i < |c| ==> c[i] in c && c[i] != ':';
    assert forall i :: 0 <= i < |a| ==> a[i] in a && a[i] != ':';
    assert a == s[..|a|] && c == t[..|c|];
    assert b == s[|a| + 1..] && d == t[|c| + 1..];
  }

  /** Its text tells an identifier from every other. */
  lemma TextTellsApart(a: Identifier, b: Identifier)
    ensures TextOf(a) == TextOf(b) <==> a == b
  {
    if TextOf(a) == TextOf(b) {
      var x, y := FormName(a.form) + ":" + a.value, FormName(b.form) + ":" + b.value;
      assert TextOf(a) == KindName(a.kind) + ":" + x && TextOf(b) == KindName(b.kind) + ":" + y;
      ColonEnds(KindName(a.kind), x, KindName(b.kind), y);
      ColonEnds(FormName(a.form), a.value, FormName(b.form), b.value);
    }
  }

  /** The order names are chosen by. */
  predicate NameLe(a: Identifier, b: Identifier) {
    Rank(a) < Rank(b) || (Rank(a) == Rank(b) && StringLe(TextOf(a), TextOf(b)))
  }

  lemma NameOrder()
    ensures TotalOrder(NameLe)
  {
    StringOrder();
    forall a, b | NameLe(a, b) && NameLe(b, a) ensures a == b { TextTellsApart(a, b); }
  }

  function KindCode(kind: Kind): nat {
    match kind case User => 0 case Host => 1 case Address => 2 case Domain => 3 case File => 4
  }

  function FormCode(form: Form): nat {
    match form
    case Sid => 0
    case Uid => 1
    case Email => 2
    case Name => 3
    case Local => 4
    case Mac => 5
    case Ip => 6
    case Hash => 7
  }

  /** The order of identifiers, of their kind, form, and value in turn. */
  predicate IdLe(a: Identifier, b: Identifier) {
    KindCode(a.kind) < KindCode(b.kind)
    || (a.kind == b.kind
        && (FormCode(a.form) < FormCode(b.form) || (a.form == b.form && StringLe(a.value, b.value))))
  }

  lemma IdOrder()
    ensures TotalOrder(IdLe)
  {
    StringOrder();
  }
}
