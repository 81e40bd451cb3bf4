/**
 * The interface definition language: grammar, semantic actions, and why the grammar's ambiguity is harmless.
 *
 * A parse tree stands for one derivation. `...Tokens(t, k)` is the token string a tree derives, followed by `k`;
 * `...Action(t)` is what its semantic actions build.
 */
module Idl {
  import opened Wrappers

  /** What an action raises, or that a token string has no derivation. */
  datatype Error = DuplicateType(item: Base, base: Base) | NotDerivable

  /** What an action builds, or the exception it raises. */
  datatype Built<T> = Built(value: T) | Raised(what: Error)

  datatype Atom =
    | StringAtom | SignedAtom | UnsignedAtom | IntAtom | LongAtom | ByteAtom | CharAtom | ShortAtom | VoidAtom

  datatype Token =
    | Identifier(name: string)
    | Primitive(atom: Atom)
    | InterfaceWord | OpenBrace | CloseBrace | OpenParen | CloseParen | Comma | Semicolon | Colon

  // ----- the abstract syntax -----

  datatype Base = AtomBase(atom: Atom) | NamedBase(name: string)

  datatype Type = Type(mods: seq<Atom>, base: Option<Base>)

  datatype Argument = Argument(ty: Type, name: string)

  datatype Method = Method(rtype: Type, name: string, args: seq<Argument>)

  datatype Interface = Interface(name: string, base: Option<string>, declarations: seq<Method>)

  predicate IsModifier(a: Atom) {
    a in {UnsignedAtom, SignedAtom, ShortAtom, LongAtom}
  }

  /** `Type.add`. */
  function Extend(t: Type, item: Base): Built<Type> {
    if item.AtomBase? && IsModifier(item.atom) then Built(t.(mods := t.mods + [item.atom]))
    else if t.base.Some? then Raised(DuplicateType(item, t.base.value))
    else Built(t.(base := Some(item)))
  }

  const EMPTY_TYPE := Type([], None)

  // ----- derivations -----

  datatype PrimitiveTree = FirstAtom(a: Atom) | MoreAtoms(p: PrimitiveTree, a: Atom)

  datatype TypeTree = PrimitiveType(p: PrimitiveTree) | NamedType(name: string)

  datatype ArgumentTree = ArgumentTree(ty: TypeTree, name: string)

  datatype ArgumentListTree =
    | MoreArguments(list: ArgumentListTree, a: ArgumentTree)
    | OneArgument(a: ArgumentTree)
    | NoArgument

  datatype MethodTree = MethodTree(ty: TypeTree, name: string, args: ArgumentListTree)

  datatype DeclarationListTree =
    | MoreDeclarations(list: DeclarationListTree, d: MethodTree)
    | OneDeclaration(d: MethodTree)
    | NoDeclaration

  datatype InterfaceTree =
    | PlainInterface(name: string, scope: DeclarationListTree)
    | DerivedInterface(name: string, base: string, scope: DeclarationListTree)

  function PrimitiveTokens(p: PrimitiveTree, k: seq<Token>): seq<Token> {
    match p
    case FirstAtom(a) => [Primitive(a)] + k
    case MoreAtoms(q, a) => PrimitiveTokens(q, [Primitive(a)] + k)
  }

  function TypeTokens(t: TypeTree, k: seq<Token>): seq<Token> {
    match t
    case PrimitiveType(p) => PrimitiveTokens(p, k)
    case NamedType(name) => [Identifier(name)] + k
  }

  function ArgumentTokens(a: ArgumentTree, k: seq<Token>): seq<Token> {
    TypeTokens(a.ty, [Identifier(a.name)] + k)
  }

  function ArgumentListTokens(l: ArgumentListTree, k: seq<Token>): seq<Token> {
    match l
    case NoArgument => k
    case OneArgument(a) => ArgumentTokens(a, k)
    case MoreArguments(list, a) => ArgumentListTokens(list, [Comma] + ArgumentTokens(a, k))
  }

  function MethodTokens(m: MethodTree, k: seq<Token>): seq<Token> {
    TypeTokens(m.ty, [Identifier(m.name), OpenParen] + ArgumentListTokens(m.args, [CloseParen] + k))
  }

  function DeclarationListTokens(l: DeclarationListTree, k: seq<Token>): seq<Token> {
    match l
    case NoDeclaration => k
    case OneDeclaration(d) => MethodTokens(d, [Semicolon] + k)
    case MoreDeclarations(list, d) => DeclarationListTokens(list, MethodTokens(d, [Semicolon] + k))
  }

  function InterfaceTokens(t: InterfaceTree): seq<Token> {
    match t
    case PlainInterface(name, scope) =>
      [InterfaceWord, Identifier(name), OpenBrace] + DeclarationListTokens(scope, [CloseBrace])
    case DerivedInterface(name, base, scope) =>
      [InterfaceWord, Identifier(name), Colon, Identifier(base), OpenBrace] +
      DeclarationListTokens(scope, [CloseBrace])
  }

  // ----- semantic actions -----

  function PrimitiveAction(p: PrimitiveTree): Built<Type> {
    match p
    case FirstAtom(a) => Extend(EMPTY_TYPE, AtomBase(a))
    case MoreAtoms(q, a) =>
      match PrimitiveAction(q)
      case Raised(what) => Raised(what)
      case Built(t) => Extend(t, AtomBase(a))
  }

  function TypeAction(t: TypeTree): Built<Type> {
    match t
    case PrimitiveType(p) => PrimitiveAction(p)
    case NamedType(name) => Extend(EMPTY_TYPE, NamedBase(name))
  }

  function ArgumentAction(a: ArgumentTree): Built<Argument> {
    MakeArgument(TypeAction(a.ty), a.name)
  }

  function MakeArgument(ty: Built<Type>, name: string): Built<Argument> {
    match ty
    case Raised(what) => Raised(what)
    case Built(t) => Built(Argument(t, name))
  }

  /** Appending what was built to what was built before it. */
  function Snoc<T>(list: Built<seq<T>>, item: Built<T>): Built<seq<T>> {
    match list
    case Raised(what) => Raised(what)
    case Built(values) =>
      match item
      case Raised(what) => Raised(what)
      case Built(value) => Built(values + [value])
  }

  function ArgumentListAction(l: ArgumentListTree): Built<seq<Argument>> {
    match l
    case NoArgument => Built([])
    case OneArgument(a) => Snoc(Built([]), ArgumentAction(a))
    case MoreArguments(list, a) => Snoc(ArgumentListAction(list), ArgumentAction(a))
  }

  function MethodAction(m: MethodTree): Built<Method> {
    MakeMethod(TypeAction(m.ty), m.name, ArgumentListAction(m.args))
  }

  function MakeMethod(ty: Built<Type>, name: string, args: Built<seq<Argument>>): Built<Method> {
    match ty
    case Raised(what) => Raised(what)
    case Built(rtype) =>
      match args
      case Raised(what) => Raised(what)
      case Built(list) => Built(Method(rtype, name, list))
  }

  function DeclarationListAction(l: DeclarationListTree): Built<seq<Method>> {
    match l
    case NoDeclaration => Built([])
    case OneDeclaration(d) => Snoc(Built([]), MethodAction(d))
    case MoreDeclarations(list, d) => Snoc(DeclarationListAction(list), MethodAction(d))
  }

  function MakeInterface(name: string, base: Option<string>, scope: Built<seq<Method>>): Built<Interface> {
    match scope
    case Raised(what) => Raised(what)
    case Built(declarations) => Built(Interface(name, base, declarations))
  }

  function InterfaceAction(t: InterfaceTree): Built<Interface> {
    match t
    case PlainInterface(name, scope) => MakeInterface(name, None, DeclarationListAction(scope))
    case DerivedInterface(name, base, scope) => MakeInterface(name, Some(base), DeclarationListAction(scope))
  }

  // ----- reading a token string without any choice -----

  /** Takes primitive tokens as long as there are any. */
  function ReadAtoms(t: Built<Type>, ts: seq<Token>): (r: (Built<Type>, seq<Token>))
    ensures |r.1| <= |ts|
    decreases |ts|
  {
    if ts == [] || !ts[0].Primitive? then (t, ts)
    else
      var next := match t case Raised(what) => Raised(what) case Built(ty) => Extend(ty, AtomBase(ts[0].atom));
      ReadAtoms(next, ts[1..])
  }

  function ReadType(ts: seq<Token>): (r: (Built<Type>, seq<Token>))
    ensures |r.1| <= |ts|
  {
    if ts == [] then (Raised(NotDerivable), [])
    else
      match ts[0]
      case Primitive(_) => ReadAtoms(Built(EMPTY_TYPE), ts)
      case Identifier(name) => (Extend(EMPTY_TYPE, NamedBase(name)), ts[1..])
      case _ => (Raised(NotDerivable), [])
  }

  function ReadArgument(ts: seq<Token>): (r: (Built<Argument>, seq<Token>))
    ensures |r.1| <= |ts|
  {
    var (ty, rest) := ReadType(ts);
    if rest == [] || !rest[0].Identifier? then (Raised(NotDerivable), [])
    else (MakeArgument(ty, rest[0].name), rest[1..])
  }

  /** Reads comma-led arguments behind those already read. */
  function ReadMoreArguments(list: Built<seq<Argument>>, ts: seq<Token>): (r: (Built<seq<Argument>>, seq<Token>))
    ensures |r.1| <= |ts|
    decreases |ts|
  {
    if ts == [] || !ts[0].Comma? then (list, ts)
    else
      var (a, rest) := ReadArgument(ts[1..]);
      ReadMoreArguments(Snoc(list, a), rest)
  }

  function ReadArguments(ts: seq<Token>): (r: (Built<seq<Argument>>, seq<Token>))
    ensures |r.1| <= |ts|
  {
    if ts == [] || ts[0].Comma? || ts[0].CloseParen? then ReadMoreArguments(Built([]), ts)
    else
      var (a, rest) := ReadArgument(ts);
      ReadMoreArguments(Snoc(Built([]), a), rest)
  }

  function ReadMethod(ts: seq<Token>): (r: (Built<Method>, seq<Token>))
    ensures ts != [] ==> |r.1| < |ts|
    ensures |r.1| <= |ts|
  {
    var (ty, r1) := ReadType(ts);
    if |r1| < 2 || !r1[0].Identifier? || !r1[1].OpenParen? then (Raised(NotDerivable), [])
    else
      var (args, r2) := ReadArguments(r1[2..]);
      if r2 == [] || !r2[0].CloseParen? then (Raised(NotDerivable), [])
      else (MakeMethod(ty, r1[0].name, args), r2[1..])
  }

  function ReadDeclarations(list: Built<seq<Method>>, ts: seq<Token>): Built<seq<Method>>
    decreases |ts|
  {
    if ts == [] then Raised(NotDerivable)
    else if ts[0].CloseBrace? then (if |ts| == 1 then list else Raised(NotDerivable))
    else
      var (m, rest) := ReadMethod(ts);
      if rest == [] || !rest[0].Semicolon? then Raised(NotDerivable)
      else ReadDeclarations(Snoc(list, m), rest[1..])
  }

  function ReadInterface(ts: seq<Token>): Built<Interface> {
    if |ts| >= 3 && ts[0].InterfaceWord? && ts[1].Identifier? && ts[2].OpenBrace? then
      MakeInterface(ts[1].name, None, ReadDeclarations(Built([]), ts[3..]))
    else if |ts| >= 5 && ts[0].InterfaceWord? && ts[1].Identifier? && ts[2].Colon? && ts[3].Identifier? &&
            ts[4].OpenBrace? then
      MakeInterface(ts[1].name, Some(ts[3].name), ReadDeclarations(Built([]), ts[5..]))
    else Raised(NotDerivable)
  }

  // ----- every derivation of a string means what the reader finds -----

  lemma {:induction false} AtomsRead(p: PrimitiveTree, k: seq<Token>)
    ensures PrimitiveTokens(p, k) != [] && PrimitiveTokens(p, k)[0].Primitive?
    ensures ReadAtoms(Built(EMPTY_TYPE), PrimitiveTokens(p, k)) == ReadAtoms(PrimitiveAction(p), k)
    decreases p
  {
    match p
    case FirstAtom(a) =>
      assert ([Primitive(a)] + k)[1..] == k;
    case MoreAtoms(q, a) =>
      AtomsRead(q, [Primitive(a)] + k);
      assert ([Primitive(a)] + k)[1..] == k;
  }

  lemma TypeReads(t: TypeTree, k: seq<Token>)
    requires k != [] && !k[0].Primitive?
    ensures ReadType(TypeTokens(t, k)) == (TypeAction(t), k)
    ensures TypeTokens(t, k) != [] && (TypeTokens(t, k)[0].Primitive? || TypeTokens(t, k)[0].Identifier?)
  {
    match t
    case PrimitiveType(p) => AtomsRead(p, k);
    case NamedType(name) => assert ([Identifier(name)] + k)[1..] == k;
  }

  lemma ArgumentReads(a: ArgumentTree, k: seq<Token>)
    ensures ReadArgument(ArgumentTokens(a, k)) == (ArgumentAction(a), k)
    ensures ArgumentTokens(a, k) != []
    ensures ArgumentTokens(a, k)[0].Primitive? || ArgumentTokens(a, k)[0].Identifier?
  {
    TypeReads(a.ty, [Identifier(a.name)] + k);
    assert ([Identifier(a.name)] + k)[1..] == k;
  }

  lemma {:induction false} ArgumentListReads(l: ArgumentListTree, k: seq<Token>)
    requires k != [] && (k[0].Comma? || k[0].CloseParen?)
    ensures ReadArguments(ArgumentListTokens(l, k)) == ReadMoreArguments(ArgumentListAction(l), k)
    decreases l
  {
    match l
    case NoArgument =>
    case OneArgument(a) => ArgumentReads(a, k);
    case MoreArguments(list, a) =>
      var k' := [Comma] + ArgumentTokens(a, k);
      ArgumentListReads(list, k');
      ArgumentReads(a, k);
      assert k'[1..] == ArgumentTokens(a, k);
  }

  lemma MethodReads(m: MethodTree, k: seq<Token>)
    ensures ReadMethod(MethodTokens(m, k)) == (MethodAction(m), k)
    ensures MethodTokens(m, k) != []
    ensures MethodTokens(m, k)[0].Primitive? || MethodTokens(m, k)[0].Identifier?
  {
    var close := [CloseParen] + k;
    var args := ArgumentListTokens(m.args, close);
    var head := [Identifier(m.name), OpenParen] + args;
    TypeReads(m.ty, head);
    assert head[2..] == args;
    ArgumentListReads(m.args, close);
    assert close[1..] == k;
  }

  lemma {:induction false} DeclarationListReads(l: DeclarationListTree, k: seq<Token>)
    ensures ReadDeclarations(Built([]), DeclarationListTokens(l, k)) == ReadDeclarations(DeclarationListAction(l), k)
    decreases l
  {
    match l
    case NoDeclaration =>
    case OneDeclaration(d) =>
      OneMoreReads(Built([]), d, k);
    case MoreDeclarations(list, d) =>
      DeclarationListReads(list, MethodTokens(d, [Semicolon] + k));
      OneMoreReads(DeclarationListAction(list), d, k);
  }

  lemma OneMoreReads(list: Built<seq<Method>>, d: MethodTree, k: seq<Token>)
    ensures ReadDeclarations(list, MethodTokens(d, [Semicolon] + k)) == ReadDeclarations(Snoc(list, MethodAction(d)), k)
  {
    MethodReads(d, [Semicolon] + k);
    assert ([Semicolon] + k)[1..] == k;
  }

  /** The actions of any derivation build what the reader builds from the token string. */
  lemma ActionIsReader(t: InterfaceTree)
    ensures InterfaceAction(t) == ReadInterface(InterfaceTokens(t))
  {
    match t
    case PlainInterface(name, scope) =>
      var ts := InterfaceTokens(t);
      DeclarationListReads(scope, [CloseBrace]);
      assert ts[3..] == DeclarationListTokens(scope, [CloseBrace]);
    case DerivedInterface(name, base, scope) =>
      var ts := InterfaceTokens(t);
      DeclarationListReads(scope, [CloseBrace]);
      assert ts[5..] == DeclarationListTokens(scope, [CloseBrace]);
  }

  // ----- what the reader accepts has a derivation -----

  lemma {:induction false} AtomsParse(p: PrimitiveTree, ts: seq<Token>) returns (q: PrimitiveTree)
    ensures var (r, rest) := ReadAtoms(PrimitiveAction(p), ts);
            PrimitiveTokens(q, rest) == PrimitiveTokens(p, ts) && PrimitiveAction(q) == r
    decreases |ts|
  {
    q := p;
    if ts != [] && ts[0].Primitive? {
      assert [Primitive(ts[0].atom)] + ts[1..] == ts;
      q := AtomsParse(MoreAtoms(p, ts[0].atom), ts[1..]);
    }
  }

  lemma TypeParse(ts: seq<Token>) returns (t: TypeTree)
    requires ReadType(ts).1 != []
    ensures var (r, rest) := ReadType(ts); TypeTokens(t, rest) == ts && TypeAction(t) == r
  {
    assert ts == [ts[0]] + ts[1..];
    match ts[0]
    case Primitive(a) =>
      var p := AtomsParse(FirstAtom(a), ts[1..]);
      t := PrimitiveType(p);
    case Identifier(name) =>
      t := NamedType(name);
  }

  lemma ArgumentParse(ts: seq<Token>) returns (a: ArgumentTree)
    requires ReadArgument(ts).1 != []
    ensures var (r, rest) := ReadArgument(ts); ArgumentTokens(a, rest) == ts && ArgumentAction(a) == r
  {
    var ty := TypeParse(ts);
    var rest := ReadType(ts).1;
    assert rest == [rest[0]] + rest[1..];
    a := ArgumentTree(ty, rest[0].name);
  }

  lemma {:induction false} MoreArgumentsParse(l: ArgumentListTree, ts: seq<Token>) returns (m: ArgumentListTree)
    requires ReadMoreArguments(ArgumentListAction(l), ts).1 != []
    ensures var (r, rest) := ReadMoreArguments(ArgumentListAction(l), ts);
            ArgumentListTokens(m, rest) == ArgumentListTokens(l, ts) && ArgumentListAction(m) == r
    decreases |ts|
  {
    m := l;
    if ts[0].Comma? {
      var a := ArgumentParse(ts[1..]);
      assert ts == [Comma] + ts[1..];
      m := MoreArgumentsParse(MoreArguments(l, a), ReadArgument(ts[1..]).1);
    }
  }

  lemma ArgumentsParse(ts: seq<Token>) returns (l: ArgumentListTree)
    requires ReadArguments(ts).1 != []
    ensures var (r, rest) := ReadArguments(ts); ArgumentListTokens(l, rest) == ts && ArgumentListAction(l) == r
  {
    if ts[0].Comma? || ts[0].CloseParen? {
      l := MoreArgumentsParse(NoArgument, ts);
    } else {
      var a := ArgumentParse(ts);
      l := MoreArgumentsParse(OneArgument(a), ReadArgument(ts).1);
    }
  }

  lemma MethodParse(ts: seq<Token>) returns (m: MethodTree)
    requires ReadMethod(ts).1 != []
    ensures var (r, rest) := ReadMethod(ts); MethodTokens(m, rest) == ts && MethodAction(m) == r
  {
    var ty := TypeParse(ts);
    var r1 := ReadType(ts).1;
    var args := ArgumentsParse(r1[2..]);
    var r2 := ReadArguments(r1[2..]).1;
    assert r1 == [Identifier(r1[0].name), OpenParen] + r1[2..] && r2 == [CloseParen] + r2[1..];
    m := MethodTree(ty, r1[0].name, args);
  }

  lemma {:induction false} DeclarationsParse(l: DeclarationListTree, ts: seq<Token>) returns (m: DeclarationListTree)
    requires ReadDeclarations(DeclarationListAction(l), ts) != Raised(NotDerivable)
    ensures DeclarationListTokens(m, [CloseBrace]) == DeclarationListTokens(l, ts)
    ensures DeclarationListAction(m) == ReadDeclarations(DeclarationListAction(l), ts)
    decreases |ts|
  {
    hide ReadMethod, MethodTokens, MethodAction;
    m := l;
    if ts[0].CloseBrace? {
      assert ts == [CloseBrace];
    } else {
      var d := MethodParse(ts);
      var rest := ReadMethod(ts).1;
      assert rest == [Semicolon] + rest[1..];
      m := DeclarationsParse(MoreDeclarations(l, d), rest[1..]);
    }
  }

  lemma InterfaceParse(ts: seq<Token>) returns (t: InterfaceTree)
    requires ReadInterface(ts) != Raised(NotDerivable)
    ensures InterfaceTokens(t) == ts
  {
    hide ReadDeclarations;
    if ts[2].OpenBrace? {
      var scope := DeclarationsParse(NoDeclaration, ts[3..]);
      t := PlainInterface(ts[1].name, scope);
      assert ts == [InterfaceWord, Identifier(ts[1].name), OpenBrace] + ts[3..];
    } else {
      var scope := DeclarationsParse(NoDeclaration, ts[5..]);
      t := DerivedInterface(ts[1].name, ts[3].name, scope);
      assert ts == [InterfaceWord, Identifier(ts[1].name), Colon, Identifier(ts[3].name), OpenBrace] + ts[5..];
    }
  }

  lemma {:induction false} PrimitiveActionRaises(p: PrimitiveTree)
    ensures PrimitiveAction(p) != Raised(NotDerivable)
    decreases p
  {
    if p.MoreAtoms? {
      PrimitiveActionRaises(p.p);
    }
  }

  lemma TypeActionRaises(t: TypeTree)
    ensures TypeAction(t) != Raised(NotDerivable)
  {
    if t.PrimitiveType? {
      PrimitiveActionRaises(t.p);
    }
  }

  lemma {:induction false} ArgumentListActionRaises(l: ArgumentListTree)
    ensures ArgumentListAction(l) != Raised(NotDerivable)
    decreases l
  {
    match l
    case NoArgument =>
    case OneArgument(a) => TypeActionRaises(a.ty);
    case MoreArguments(list, a) =>
      ArgumentListActionRaises(list);
      TypeActionRaises(a.ty);
  }

  lemma {:induction false} DeclarationListActionRaises(l: DeclarationListTree)
    ensures DeclarationListAction(l) != Raised(NotDerivable)
    decreases l
  {
    if !l.NoDeclaration? {
      TypeActionRaises(l.d.ty);
      ArgumentListActionRaises(l.d.args);
      if l.MoreDeclarations? {
        DeclarationListActionRaises(l.list);
      }
    }
  }

  /**
   * The reader accepts exactly the token strings that have a derivation, to the last token, and builds an interface
   * exactly when some derivation does.
   */
  lemma ReaderIsComplete(ts: seq<Token>)
    ensures ReadInterface(ts) != Raised(NotDerivable) <==> exists t :: InterfaceTokens(t) == ts
    ensures ReadInterface(ts).Built? <==> exists t :: InterfaceTokens(t) == ts && InterfaceAction(t).Built?
  {
    forall t | InterfaceTokens(t) == ts ensures ReadInterface(ts) == InterfaceAction(t) != Raised(NotDerivable) {
      ActionIsReader(t);
      DeclarationListActionRaises(t.scope);
    }
    if ReadInterface(ts) != Raised(NotDerivable) {
      var t := InterfaceParse(ts);
      assert InterfaceTokens(t) == ts;
    }
  }

  /** Two derivations of one token string build the same interface, or raise the same exception. */
  lemma AmbiguityIsHarmless(t: InterfaceTree, u: InterfaceTree)
    requires InterfaceTokens(t) == InterfaceTokens(u)
    ensures InterfaceAction(t) == InterfaceAction(u)
  {
    ActionIsReader(t);
    ActionIsReader(u);
  }

  /** The grammar really is ambiguous: every one-method interface has two derivations. */
  lemma GrammarIsAmbiguous(name: string, d: MethodTree)
    ensures var t := PlainInterface(name, OneDeclaration(d));
            var u := PlainInterface(name, MoreDeclarations(NoDeclaration, d));
            t != u && InterfaceTokens(t) == InterfaceTokens(u)
  {
    var k := MethodTokens(d, [Semicolon, CloseBrace]);
    assert DeclarationListTokens(MoreDeclarations(NoDeclaration, d), [CloseBrace]) == k by {
      assert [Semicolon] + [CloseBrace] == [Semicolon, CloseBrace];
      assert DeclarationListTokens(NoDeclaration, k) == k;
    }
    assert [Semicolon] + [CloseBrace] == [Semicolon, CloseBrace];
  }

  /** A comma before the first argument is accepted and leaves no trace in the list. */
  lemma LeadingCommaLeavesNoTrace(a: ArgumentTree, k: seq<Token>)
    ensures var l := MoreArguments(NoArgument, a);
            && ArgumentListTokens(l, k) == [Comma] + ArgumentListTokens(OneArgument(a), k)
            && ArgumentListAction(l) == ArgumentListAction(OneArgument(a))
  {
  }

  // ----- which types a primitive builds -----

  /** The atoms of a primitive, in the order they are written. */
  function Atoms(p: PrimitiveTree): seq<Atom> {
    match p
    case FirstAtom(a) => [a]
    case MoreAtoms(q, a) => Atoms(q) + [a]
  }

  /** Those of the atoms that are sizes and signs, or those that are not. */
  function Picked(atoms: seq<Atom>, modifiers: bool): seq<Atom> {
    if atoms == [] then []
    else
      var a := atoms[|atoms| - 1];
      Picked(atoms[..|atoms| - 1], modifiers) +
      if (a in {ShortAtom, LongAtom, SignedAtom, UnsignedAtom}) == modifiers then [a] else []
  }

  /**
   * Atoms combine exactly when at most one of them is not a size or a sign; that one is the base, and the others are
   * the modifiers in order. Otherwise the second one is the duplicate that is raised, over the first.
   */
  lemma {:induction false} PrimitiveBuilds(p: PrimitiveTree)
    ensures var mods, others := Picked(Atoms(p), true), Picked(Atoms(p), false);
            PrimitiveAction(p) ==
            if |others| > 1 then Raised(DuplicateType(AtomBase(others[1]), AtomBase(others[0])))
            else Built(Type(mods, if others == [] then None else Some(AtomBase(others[0]))))
    decreases p
  {
    match p
    case FirstAtom(a) =>
      assert [] + [a] == [a];
      PickedSnoc([], a);
    case MoreAtoms(q, a) =>
      PrimitiveBuilds(q);
      PickedSnoc(Atoms(q), a);
      var mods, others := Picked(Atoms(q), true), Picked(Atoms(q), false);
      assert Picked(Atoms(p), true) == if IsModifier(a) then mods + [a] else mods;
      assert Picked(Atoms(p), false) == if IsModifier(a) then others else others + [a];
  }

  lemma PickedSnoc(atoms: seq<Atom>, a: Atom)
    ensures forall modifiers ::
              Picked(atoms + [a], modifiers) ==
              Picked(atoms, modifiers) +
              if (a in {ShortAtom, LongAtom, SignedAtom, UnsignedAtom}) == modifiers then [a] else []
  {
    assert (atoms + [a])[..|atoms|] == atoms;
  }

  /** The types of an interface in the order they are written. */
  function ArgumentTypes(l: ArgumentListTree): seq<TypeTree> {
    match l
    case NoArgument => []
    case OneArgument(a) => [a.ty]
    case MoreArguments(list, a) => ArgumentTypes(list) + [a.ty]
  }

  function TypesOf(l: DeclarationListTree): seq<TypeTree> {
    match l
    case NoDeclaration => []
    case OneDeclaration(d) => [d.ty] + ArgumentTypes(d.args)
    case MoreDeclarations(list, d) => TypesOf(list) + ([d.ty] + ArgumentTypes(d.args))
  }

  /** What the first of the types that cannot be built raises. */
  function FirstRaised(types: seq<TypeTree>): Option<Error> {
    if types == [] then None
    else
      match TypeAction(types[0])
      case Raised(what) => Some(what)
      case Built(_) => FirstRaised(types[1..])
  }

  lemma {:induction false} FirstRaisedAppend(types: seq<TypeTree>, more: seq<TypeTree>)
    ensures FirstRaised(types + more) == if FirstRaised(types).Some? then FirstRaised(types) else FirstRaised(more)
  {
    if types == [] {
      assert types + more == more;
    } else {
      assert (types + more)[1..] == types[1..] + more;
      FirstRaisedAppend(types[1..], more);
    }
  }

  function RaisedBy<T>(b: Built<T>): Option<Error> {
    match b
    case Built(_) => None
    case Raised(what) => Some(what)
  }

  lemma OneRaised(t: TypeTree)
    ensures FirstRaised([t]) == RaisedBy(TypeAction(t))
  {
  }

  lemma {:induction false} ArgumentsRaiseFirst(l: ArgumentListTree)
    ensures RaisedBy(ArgumentListAction(l)) == FirstRaised(ArgumentTypes(l))
    decreases l
  {
    match l
    case NoArgument =>
    case OneArgument(a) => OneRaised(a.ty);
    case MoreArguments(list, a) =>
      ArgumentsRaiseFirst(list);
      OneRaised(a.ty);
      FirstRaisedAppend(ArgumentTypes(list), [a.ty]);
  }

  lemma MethodRaisesFirst(d: MethodTree)
    ensures RaisedBy(MethodAction(d)) == FirstRaised([d.ty] + ArgumentTypes(d.args))
  {
    ArgumentsRaiseFirst(d.args);
    OneRaised(d.ty);
    FirstRaisedAppend([d.ty], ArgumentTypes(d.args));
  }

  lemma {:induction false} DeclarationsRaiseFirst(l: DeclarationListTree)
    ensures RaisedBy(DeclarationListAction(l)) == FirstRaised(TypesOf(l))
    decreases l
  {
    match l
    case NoDeclaration =>
    case OneDeclaration(d) => MethodRaisesFirst(d);
    case MoreDeclarations(list, d) =>
      DeclarationsRaiseFirst(list);
      MethodRaisesFirst(d);
      FirstRaisedAppend(TypesOf(list), [d.ty] + ArgumentTypes(d.args));
  }

  /** An interface raises exactly what the first of its types raises that cannot be built. */
  lemma FirstBadTypeRaises(t: InterfaceTree)
    ensures RaisedBy(InterfaceAction(t)) == FirstRaised(TypesOf(t.scope))
  {
    DeclarationsRaiseFirst(t.scope);
  }

  // ----- the repository's own `system.ServiceManager` -----

  const VERSION_TYPE := MoreAtoms(MoreAtoms(FirstAtom(UnsignedAtom), ShortAtom), IntAtom)

  const START_METHOD :=
    MethodTree(PrimitiveType(FirstAtom(VoidAtom)), "start",
               MoreArguments(OneArgument(ArgumentTree(PrimitiveType(FirstAtom(StringAtom)), "name")),
                             ArgumentTree(PrimitiveType(VERSION_TYPE), "version")))

  lemma StartMethodTokens(k: seq<Token>)
    ensures MethodTokens(START_METHOD, k) ==
            [Primitive(VoidAtom), Identifier("start"), OpenParen,
             Primitive(StringAtom), Identifier("name"), Comma,
             Primitive(UnsignedAtom), Primitive(ShortAtom), Primitive(IntAtom), Identifier("version"), CloseParen] + k
  {
    var k1 := [CloseParen] + k;
    var k2 := [Identifier("version")] + k1;
    var size, signed := MoreAtoms(FirstAtom(UnsignedAtom), ShortAtom), [Primitive(ShortAtom), Primitive(IntAtom)] + k2;
    assert [Primitive(ShortAtom)] + ([Primitive(IntAtom)] + k2) == signed;
    assert PrimitiveTokens(size, [Primitive(IntAtom)] + k2) == PrimitiveTokens(FirstAtom(UnsignedAtom), signed);
    assert PrimitiveTokens(VERSION_TYPE, k2) == [Primitive(UnsignedAtom)] + signed;
    var k3 := [Comma] + PrimitiveTokens(VERSION_TYPE, k2);
    assert ArgumentListTokens(START_METHOD.args, k1) == [Primitive(StringAtom)] + ([Identifier("name")] + k3);
  }

  lemma StartMethodBuilds()
    ensures MethodAction(START_METHOD) ==
            Built(Method(Type([], Some(AtomBase(VoidAtom))), "start",
                         [Argument(Type([], Some(AtomBase(StringAtom))), "name"),
                          Argument(Type([UnsignedAtom, ShortAtom], Some(AtomBase(IntAtom))), "version")]))
  {
    var size := MoreAtoms(FirstAtom(UnsignedAtom), ShortAtom);
    assert [] + [UnsignedAtom] == [UnsignedAtom] && [UnsignedAtom] + [ShortAtom] == [UnsignedAtom, ShortAtom];
    assert PrimitiveAction(size) == Built(Type([UnsignedAtom, ShortAtom], None));
    assert PrimitiveAction(VERSION_TYPE) == Built(Type([UnsignedAtom, ShortAtom], Some(AtomBase(IntAtom))));
    var name, version := START_METHOD.args.list.a, START_METHOD.args.a;
    var first := Argument(Type([], Some(AtomBase(StringAtom))), "name");
    var second := Argument(Type([UnsignedAtom, ShortAtom], Some(AtomBase(IntAtom))), "version");
    assert ArgumentAction(name) == Built(first) && ArgumentAction(version) == Built(second);
    assert [] + [first] == [first] && [first] + [second] == [first, second];
    assert ArgumentListAction(OneArgument(name)) == Built([first]);
    assert ArgumentListAction(START_METHOD.args) == Built([first, second]);
  }

  const SERVICE_MANAGER: seq<Token> :=
    [InterfaceWord, Identifier("system.ServiceManager"), OpenBrace,
     Primitive(VoidAtom), Identifier("start"), OpenParen,
     Primitive(StringAtom), Identifier("name"), Comma,
     Primitive(UnsignedAtom), Primitive(ShortAtom), Primitive(IntAtom), Identifier("version"), CloseParen,
     Semicolon, CloseBrace]

  lemma ServiceManagerReads()
    ensures ReadInterface(SERVICE_MANAGER) ==
            Built(Interface("system.ServiceManager", None,
                            [Method(Type([], Some(AtomBase(VoidAtom))), "start",
                                    [Argument(Type([], Some(AtomBase(StringAtom))), "name"),
                                     Argument(Type([UnsignedAtom, ShortAtom], Some(AtomBase(IntAtom))), "version")])]))
  {
    hide ReadInterface, MethodTokens, MethodAction;
    var t := PlainInterface("system.ServiceManager", OneDeclaration(START_METHOD));
    StartMethodTokens([Semicolon] + [CloseBrace]);
    StartMethodBuilds();
    var m := MethodAction(START_METHOD).value;
    assert [] + [m] == [m] && DeclarationListAction(t.scope) == Built([m]);
    assert InterfaceTokens(t) == SERVICE_MANAGER;
    ActionIsReader(t);
  }

  /** An interface over a base, with no methods of its own. */
  lemma EmptyDerivedReads(name: string, base: string)
    ensures ReadInterface([InterfaceWord, Identifier(name), Colon, Identifier(base), OpenBrace, CloseBrace]) ==
            Built(Interface(name, Some(base), []))
  {
    var t := DerivedInterface(name, base, NoDeclaration);
    assert InterfaceTokens(t) == [InterfaceWord, Identifier(name), Colon, Identifier(base), OpenBrace, CloseBrace];
    ActionIsReader(t);
  }

  // ----- which interfaces can be written at all -----

  /** A type as the grammar can build it: a name alone, or modifiers and at most one other atom, not nothing. */
  predicate TypeOk(t: Type) {
    && (forall i :: 0 <= i < |t.mods| ==> IsModifier(t.mods[i]))
    && match t.base
       case None => t.mods != []
       case Some(NamedBase(_)) => t.mods == []
       case Some(AtomBase(a)) => !IsModifier(a)
  }

  predicate ArgumentsOk(args: seq<Argument>) {
    forall i :: 0 <= i < |args| ==> TypeOk(args[i].ty)
  }

  predicate MethodOk(m: Method) {
    TypeOk(m.rtype) && ArgumentsOk(m.args)
  }

  predicate DeclarationsOk(ms: seq<Method>) {
    forall i :: 0 <= i < |ms| ==> MethodOk(ms[i])
  }

  function ModifiersTree(mods: seq<Atom>): PrimitiveTree
    requires mods != []
  {
    if |mods| == 1 then FirstAtom(mods[0]) else MoreAtoms(ModifiersTree(mods[..|mods| - 1]), mods[|mods| - 1])
  }

  /** The canonical derivation of a type: modifiers first. */
  function TypeTreeOf(t: Type): TypeTree
    requires TypeOk(t)
  {
    match t.base
    case None => PrimitiveType(ModifiersTree(t.mods))
    case Some(NamedBase(name)) => NamedType(name)
    case Some(AtomBase(a)) =>
      PrimitiveType(if t.mods == [] then FirstAtom(a) else MoreAtoms(ModifiersTree(t.mods), a))
  }

  function ArgumentTreeOf(a: Argument): ArgumentTree
    requires TypeOk(a.ty)
  {
    ArgumentTree(TypeTreeOf(a.ty), a.name)
  }

  function ArgumentListTreeOf(args: seq<Argument>): ArgumentListTree
    requires ArgumentsOk(args)
  {
    if args == [] then NoArgument
    else
      var n := |args| - 1;
      if n == 0 then OneArgument(ArgumentTreeOf(args[0]))
      else MoreArguments(ArgumentListTreeOf(args[..n]), ArgumentTreeOf(args[n]))
  }

  function MethodTreeOf(m: Method): MethodTree
    requires MethodOk(m)
  {
    MethodTree(TypeTreeOf(m.rtype), m.name, ArgumentListTreeOf(m.args))
  }

  function DeclarationListTreeOf(ms: seq<Method>): DeclarationListTree
    requires DeclarationsOk(ms)
  {
    if ms == [] then NoDeclaration
    else MoreDeclarations(DeclarationListTreeOf(ms[..|ms| - 1]), MethodTreeOf(ms[|ms| - 1]))
  }

  function InterfaceTreeOf(f: Interface): InterfaceTree
    requires DeclarationsOk(f.declarations)
  {
    match f.base
    case None => PlainInterface(f.name, DeclarationListTreeOf(f.declarations))
    case Some(base) => DerivedInterface(f.name, base, DeclarationListTreeOf(f.declarations))
  }

  lemma {:induction false} ModifiersBuild(mods: seq<Atom>)
    requires mods != [] && forall i :: 0 <= i < |mods| ==> IsModifier(mods[i])
    ensures PrimitiveAction(ModifiersTree(mods)) == Built(Type(mods, None))
    decreases |mods|
  {
    var n := |mods| - 1;
    assert mods == mods[..n] + [mods[n]];
    if n > 0 {
      ModifiersBuild(mods[..n]);
    }
  }

  lemma TypeBuilds(t: Type)
    requires TypeOk(t)
    ensures TypeAction(TypeTreeOf(t)) == Built(t)
  {
    if t.mods != [] {
      ModifiersBuild(t.mods);
    }
  }

  lemma {:induction false} ArgumentsBuild(args: seq<Argument>)
    requires ArgumentsOk(args)
    ensures ArgumentListAction(ArgumentListTreeOf(args)) == Built(args)
    decreases |args|
  {
    if args != [] {
      var n := |args| - 1;
      assert args == args[..n] + [args[n]];
      TypeBuilds(args[n].ty);
      ArgumentsBuild(args[..n]);
    }
  }

  lemma {:induction false} DeclarationsBuild(ms: seq<Method>)
    requires DeclarationsOk(ms)
    ensures DeclarationListAction(DeclarationListTreeOf(ms)) == Built(ms)
    decreases |ms|
  {
    if ms != [] {
      var n := |ms| - 1;
      assert ms == ms[..n] + [ms[n]];
      TypeBuilds(ms[n].rtype);
      ArgumentsBuild(ms[n].args);
      DeclarationsBuild(ms[..n]);
    }
  }

  lemma {:induction false} BuiltPrimitiveOk(p: PrimitiveTree)
    ensures var b := PrimitiveAction(p);
            b.Built? ==> TypeOk(b.value) && (b.value.base.Some? ==> b.value.base.value.AtomBase?)
    decreases p
  {
    if p.MoreAtoms? {
      BuiltPrimitiveOk(p.p);
    }
  }

  lemma BuiltTypeOk(t: TypeTree)
    ensures TypeAction(t).Built? ==> TypeOk(TypeAction(t).value)
  {
    if t.PrimitiveType? {
      BuiltPrimitiveOk(t.p);
    }
  }

  lemma {:induction false} BuiltArgumentsOk(l: ArgumentListTree)
    ensures ArgumentListAction(l).Built? ==> ArgumentsOk(ArgumentListAction(l).value)
    decreases l
  {
    match l
    case NoArgument =>
    case OneArgument(a) => BuiltTypeOk(a.ty);
    case MoreArguments(list, a) =>
      BuiltArgumentsOk(list);
      BuiltTypeOk(a.ty);
  }

  lemma BuiltMethodOk(m: MethodTree)
    ensures MethodAction(m).Built? ==> MethodOk(MethodAction(m).value)
  {
    BuiltTypeOk(m.ty);
    BuiltArgumentsOk(m.args);
  }

  lemma {:induction false} BuiltDeclarationsOk(l: DeclarationListTree)
    ensures DeclarationListAction(l).Built? ==> DeclarationsOk(DeclarationListAction(l).value)
    decreases l
  {
    match l
    case NoDeclaration =>
    case OneDeclaration(d) => BuiltMethodOk(d);
    case MoreDeclarations(list, d) =>
      BuiltDeclarationsOk(list);
      BuiltMethodOk(d);
  }

  /** An interface can be written down exactly when all its types are ones the grammar can build. */
  lemma WritableExactlyWhenOk(f: Interface)
    ensures DeclarationsOk(f.declarations) <==> exists t :: InterfaceAction(t) == Built(f)
  {
    if DeclarationsOk(f.declarations) {
      InterfaceBuilds(f);
    }
    forall t | InterfaceAction(t) == Built(f) ensures DeclarationsOk(f.declarations) {
      BuiltDeclarationsOk(t.scope);
    }
  }

  /** Writing an interface out and reading the tokens gives it back. */
  lemma WriteThenRead(f: Interface)
    requires DeclarationsOk(f.declarations)
    ensures ReadInterface(InterfaceTokens(InterfaceTreeOf(f))) == Built(f)
  {
    hide *;
    InterfaceBuilds(f);
    ActionIsReader(InterfaceTreeOf(f));
  }

  lemma InterfaceBuilds(f: Interface)
    requires DeclarationsOk(f.declarations)
    ensures InterfaceAction(InterfaceTreeOf(f)) == Built(f)
  {
    hide DeclarationListTreeOf, DeclarationListAction, DeclarationsOk;
    DeclarationsBuild(f.declarations);
  }

  // ----- the actions in place -----

  /** The parser's type node, extended in place as atoms are reduced. */
  class TypeNode {
    var mods: seq<Atom>
    var base: Option<Base>

    ghost function View(): Type
      reads this
    {
      Type(mods, base)
    }

    constructor ()
      ensures View() == EMPTY_TYPE
    {
      mods, base := [], None;
    }

    /** Returns the exception, if it raises; the node is then as before. */
    method Add(item: Base) returns (raised: Option<Error>)
      modifies this
      ensures match raised
              case None => Extend(old(View()), item) == Built(View())
              case Some(what) => Extend(old(View()), item) == Raised(what) && View() == old(View())
      ensures if item.AtomBase? && item.atom in {ShortAtom, LongAtom, SignedAtom, UnsignedAtom} then
                mods == old(mods) + [item.atom] && base == old(base) && raised.None?
              else if old(base).None? then mods == old(mods) && base == Some(item) && raised.None?
              else raised == Some(DuplicateType(item, old(base).value))
    {
      if item.AtomBase? && IsModifier(item.atom) {
        mods := mods + [item.atom];
      } else if base.Some? {
        return Some(DuplicateType(item, base.value));
      } else {
        base := Some(item);
      }
      return None;
    }
  }

  /** Reduces a primitive, innermost atom first, into one node. */
  method ReducePrimitive(p: PrimitiveTree) returns (node: TypeNode, raised: Option<Error>)
    ensures fresh(node)
    ensures PrimitiveAction(p) == match raised case None => Built(node.View()) case Some(what) => Raised(what)
  {
    match p {
      case FirstAtom(a) =>
        node := new TypeNode();
        raised := node.Add(AtomBase(a));
      case MoreAtoms(q, a) =>
        node, raised := ReducePrimitive(q);
        if raised.None? {
          raised := node.Add(AtomBase(a));
        }
    }
  }
}
