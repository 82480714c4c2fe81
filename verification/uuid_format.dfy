/**
 * The user-id check of the handlers: the regular expression
 *   ^[0-9a-fA-F]{8}-[0-9a-fA-F]{4}-[1-5][0-9a-fA-F]{3}-[89ab][0-9a-fA-F]{3}-[0-9a-fA-F]{12}$
 * written as a list of character classes with fixed repetition counts and
 * matched, anchored at both ends, by a small matcher. The layout is the
 * textual UUID of section 3 of RFC 4122, with the version character of
 * section 4.1.3 limited to 1-5 and the variant character of section 4.1.1
 * limited to the lower-case 8, 9, a, b.
 */
module UuidFormat {

  /** The character classes the expression uses. */
  datatype CharClass = HexDigit | VersionDigit | VariantDigit | Hyphen

  predicate IsHexDigit(c: char) {
    '0' <= c <= '9' || 'a' <= c <= 'f' || 'A' <= c <= 'F'
  }

  predicate InClass(c: char, cls: CharClass) {
    match cls
    case HexDigit => IsHexDigit(c)
    case VersionDigit => '1' <= c <= '5'
    case VariantDigit => c == '8' || c == '9' || c == 'a' || c == 'b'
    case Hyphen => c == '-'
  }

  /** `[class]{count}`: exactly `count` characters of one class. */
  datatype Atom = Atom(cls: CharClass, count: nat)

  /** The characters of `s` from `pos` on, `atom.count` of them, all belong to the atom's class. */
  predicate Run(s: string, pos: nat, atom: Atom)
    requires pos + atom.count <= |s|
  {
    forall i | pos <= i < pos + atom.count :: InClass(s[i], atom.cls)
  }

  /** A sequence of atoms, matched left to right. */
  datatype Pattern = Empty | Cons(head: Atom, tail: Pattern)

  /** The expression, atom by atom. */
  const UuidPattern: Pattern :=
    Cons(Atom(HexDigit, 8),
    Cons(Atom(Hyphen, 1),
    Cons(Atom(HexDigit, 4),
    Cons(Atom(Hyphen, 1),
    Cons(Atom(VersionDigit, 1),
    Cons(Atom(HexDigit, 3),
    Cons(Atom(Hyphen, 1),
    Cons(Atom(VariantDigit, 1),
    Cons(Atom(HexDigit, 3),
    Cons(Atom(Hyphen, 1),
    Cons(Atom(HexDigit, 12),
    Empty)))))))))))

  /**
   * The atoms of `p` match `s` from position `pos` up to its very end: each
   * atom takes exactly its count of characters of its class, and nothing is
   * left over (the expression's `$`).
   */
  predicate MatchesFrom(p: Pattern, s: string, pos: nat)
  {
    match p
    case Empty => pos == |s|
    case Cons(atom, rest) =>
      pos + atom.count <= |s| && Run(s, pos, atom) && MatchesFrom(rest, s, pos + atom.count)
  }

  /** `isValidUUID`: the whole string matches the expression (`^` ... `$`). */
  predicate IsValidUuid(s: string) {
    MatchesFrom(UuidPattern, s, 0)
  }

  /**
   * The fixed shape, position by position: 36 characters, hyphens at 8, 13,
   * 18 and 23, a digit 1-5 at 14, one of the lower-case 8, 9, a, b at 19, and
   * a hexadecimal digit of either case everywhere else.
   */
  predicate UuidShaped(s: string) {
    |s| == 36
    && (forall k | 0 <= k < 36 ::
          if k == 8 || k == 13 || k == 18 || k == 23 then s[k] == '-'
          else if k == 14 then '1' <= s[k] <= '5'
          else if k == 19 then s[k] == '8' || s[k] == '9' || s[k] == 'a' || s[k] == 'b'
          else IsHexDigit(s[k]))
  }

  /** The expression's groups, each at its fixed offset in a 36-character string. */
  predicate GroupsAtOffsets(s: string)
    requires |s| == 36
  {
    Run(s, 0, Atom(HexDigit, 8))
    && Run(s, 8, Atom(Hyphen, 1))
    && Run(s, 9, Atom(HexDigit, 4))
    && Run(s, 13, Atom(Hyphen, 1))
    && Run(s, 14, Atom(VersionDigit, 1))
    && Run(s, 15, Atom(HexDigit, 3))
    && Run(s, 18, Atom(Hyphen, 1))
    && Run(s, 19, Atom(VariantDigit, 1))
    && Run(s, 20, Atom(HexDigit, 3))
    && Run(s, 23, Atom(Hyphen, 1))
    && Run(s, 24, Atom(HexDigit, 12))
  }

  /** Matching the pattern means having 36 characters and each group at its offset. */
  lemma MatchesIffGroups(s: string)
    ensures IsValidUuid(s) <==> |s| == 36 && GroupsAtOffsets(s)
  {
    // Walk the pattern one atom at a time.
    var p := UuidPattern;
    assert MatchesFrom(p, s, 0) <==> 8 <= |s| && Run(s, 0, Atom(HexDigit, 8)) && MatchesFrom(p.tail, s, 8);
    p := p.tail;
    assert MatchesFrom(p, s, 8) <==> 9 <= |s| && Run(s, 8, Atom(Hyphen, 1)) && MatchesFrom(p.tail, s, 9);
    p := p.tail;
    assert MatchesFrom(p, s, 9) <==> 13 <= |s| && Run(s, 9, Atom(HexDigit, 4)) && MatchesFrom(p.tail, s, 13);
    p := p.tail;
    assert MatchesFrom(p, s, 13) <==> 14 <= |s| && Run(s, 13, Atom(Hyphen, 1)) && MatchesFrom(p.tail, s, 14);
    p := p.tail;
    assert MatchesFrom(p, s, 14) <==> 15 <= |s| && Run(s, 14, Atom(VersionDigit, 1)) && MatchesFrom(p.tail, s, 15);
    p := p.tail;
    assert MatchesFrom(p, s, 15) <==> 18 <= |s| && Run(s, 15, Atom(HexDigit, 3)) && MatchesFrom(p.tail, s, 18);
    p := p.tail;
    assert MatchesFrom(p, s, 18) <==> 19 <= |s| && Run(s, 18, Atom(Hyphen, 1)) && MatchesFrom(p.tail, s, 19);
    p := p.tail;
    assert MatchesFrom(p, s, 19) <==> 20 <= |s| && Run(s, 19, Atom(VariantDigit, 1)) && MatchesFrom(p.tail, s, 20);
    p := p.tail;
    assert MatchesFrom(p, s, 20) <==> 23 <= |s| && Run(s, 20, Atom(HexDigit, 3)) && MatchesFrom(p.tail, s, 23);
    p := p.tail;
    assert MatchesFrom(p, s, 23) <==> 24 <= |s| && Run(s, 23, Atom(Hyphen, 1)) && MatchesFrom(p.tail, s, 24);
    p := p.tail;
    assert MatchesFrom(p, s, 24) <==> 36 <= |s| && Run(s, 24, Atom(HexDigit, 12)) && MatchesFrom(p.tail, s, 36);
    p := p.tail;
    assert p == Empty;
  }

  /** The groups at their offsets are the position-by-position shape. */
  lemma GroupsIffShaped(s: string)
    requires |s| == 36
    ensures GroupsAtOffsets(s) <==> UuidShaped(s)
  {
  }

  /** `isValidUUID` accepts exactly the strings of the fixed UUID shape. */
  lemma IsValidUuidIffShaped(s: string)
    ensures IsValidUuid(s) <==> UuidShaped(s)
  {
    MatchesIffGroups(s);
    if |s| == 36 {
      GroupsIffShaped(s);
    }
  }

  /** An accepted id is never empty and never contains a `/`. */
  lemma ValidUuidHasNoSlash(s: string)
    requires IsValidUuid(s)
    ensures s != "" && '/' !in s
  {
    IsValidUuidIffShaped(s);
    forall k | 0 <= k < |s|
      ensures s[k] != '/'
    {
    }
  }

  /**
   * Only the lower-case variant characters pass: an id with `A` at position
   * 19 is rejected whatever its other characters are.
   */
  lemma VariantIsLowerCaseOnly(s: string)
    requires |s| == 36 && s[19] == 'A'
    ensures !IsValidUuid(s)
  {
    IsValidUuidIffShaped(s);
  }


}
