/** Linking library addresses into compiled bytecode. The bytecode is a hex string with a "0x" prefix;
    a fixup names a byte range in it by start and length. */
module Linker {

  datatype Fixup = Fixup(start: nat, length: nat)

  datatype LibraryReferences = LibraryReferences(library: string, fixups: seq<Fixup>)

  datatype FileReferences = FileReferences(file: string, libraries: seq<LibraryReferences>)

  /** One overwrite: a range, and the address with its "0x" prefix to put there. */
  datatype Patch = Patch(fixup: Fixup, address: string)

  /** The JavaScript substr from 0, and from n to the end; both clamp at the end of the string. */
  function Head(s: string, n: nat): string {
    if n <= |s| then s[..n] else s
  }

  function Tail(s: string, n: nat): string {
    if n <= |s| then s[n..] else ""
  }

  function Splice(code: string, p: Patch): string {
    Head(code, 2 + p.fixup.start * 2) + Tail(p.address, 2) + Tail(code, 2 + (p.fixup.start + p.fixup.length) * 2)
  }

  function Apply(code: string, ps: seq<Patch>): string {
    if ps == [] then code else Splice(Apply(code, ps[..|ps| - 1]), ps[|ps| - 1])
  }

  function LibraryPatches(fixups: seq<Fixup>, address: string): seq<Patch> {
    seq(|fixups|, i requires 0 <= i < |fixups| => Patch(fixups[i], address))
  }

  /** A library without an address contributes nothing. */
  function FilePatches(refs: seq<LibraryReferences>, addresses: map<string, string>): seq<Patch> {
    if refs == [] then []
    else
      var last := refs[|refs| - 1];
      FilePatches(refs[..|refs| - 1], addresses) +
      if last.library in addresses then LibraryPatches(last.fixups, addresses[last.library]) else []
  }

  function Patches(files: seq<FileReferences>, addresses: map<string, string>): seq<Patch> {
    if files == [] then []
    else Patches(files[..|files| - 1], addresses) + FilePatches(files[|files| - 1].libraries, addresses)
  }

  function Link(code: string, files: seq<FileReferences>, addresses: map<string, string>): string {
    Apply(code, Patches(files, addresses))
  }

  lemma {:induction false} ApplyConcat(code: string, a: seq<Patch>, b: seq<Patch>)
    ensures Apply(code, a + b) == Apply(Apply(code, a), b)
  {
    if b == [] {
      assert a + b == a;
    } else {
      assert (a + b)[..|a + b| - 1] == a + b[..|b| - 1];
      ApplyConcat(code, a, b[..|b| - 1]);
    }
  }

  lemma {:induction false} FixupStep(code: string, fixups: seq<Fixup>, address: string, x: nat)
    requires x < |fixups|
    ensures Apply(code, LibraryPatches(fixups[..x + 1], address)) ==
            Splice(Apply(code, LibraryPatches(fixups[..x], address)), Patch(fixups[x], address))
  {
    var ps := LibraryPatches(fixups[..x + 1], address);
    assert ps[..x] == LibraryPatches(fixups[..x], address);
  }

  lemma {:induction false} LibraryStep(code: string, refs: seq<LibraryReferences>, addresses: map<string, string>,
                                       l: nat)
    requires l < |refs|
    ensures Apply(code, FilePatches(refs[..l + 1], addresses)) ==
            if refs[l].library in addresses then
              Apply(Apply(code, FilePatches(refs[..l], addresses)),
                    LibraryPatches(refs[l].fixups, addresses[refs[l].library]))
            else
              Apply(code, FilePatches(refs[..l], addresses))
  {
    assert refs[..l + 1][..l] == refs[..l];
    if refs[l].library in addresses {
      ApplyConcat(code, FilePatches(refs[..l], addresses), LibraryPatches(refs[l].fixups, addresses[refs[l].library]));
    } else {
      assert FilePatches(refs[..l], addresses) + [] == FilePatches(refs[..l], addresses);
    }
  }

  lemma {:induction false} FileStep(code: string, files: seq<FileReferences>, addresses: map<string, string>, f: nat)
    requires f < |files|
    ensures Link(code, files[..f + 1], addresses) ==
            Apply(Link(code, files[..f], addresses), FilePatches(files[f].libraries, addresses))
  {
    assert files[..f + 1][..f] == files[..f];
    ApplyConcat(code, Patches(files[..f], addresses), FilePatches(files[f].libraries, addresses));
  }

  /** The innermost loop: all fixups of one library. */
  method LinkLibrary(code: string, fixups: seq<Fixup>, address: string) returns (bytecode: string)
    ensures bytecode == Apply(code, LibraryPatches(fixups, address))
  {
    bytecode := code;
    for x := 0 to |fixups|
      invariant bytecode == Apply(code, LibraryPatches(fixups[..x], address))
    {
      FixupStep(code, fixups, address, x);
      bytecode := Splice(bytecode, Patch(fixups[x], address));
    }
    assert fixups[..|fixups|] == fixups;
  }

  /** The loop over the libraries of one file; those without an address are passed over. */
  method LinkFile(code: string, references: seq<LibraryReferences>, addresses: map<string, string>)
    returns (bytecode: string)
    ensures bytecode == Apply(code, FilePatches(references, addresses))
  {
    bytecode := code;
    for l := 0 to |references|
      invariant bytecode == Apply(code, FilePatches(references[..l], addresses))
    {
      LibraryStep(code, references, addresses, l);
      if references[l].library !in addresses {
        continue;
      }
      bytecode := LinkLibrary(bytecode, references[l].fixups, addresses[references[l].library]);
    }
    assert references[..|references|] == references;
  }

  method LinkBytecode(code: string, files: seq<FileReferences>, addresses: map<string, string>)
    returns (bytecode: string)
    ensures bytecode == Link(code, files, addresses)
  {
    bytecode := code;
    for f := 0 to |files|
      invariant bytecode == Link(code, files[..f], addresses)
    {
      FileStep(code, files, addresses, f);
      bytecode := LinkFile(bytecode, files[f].libraries, addresses);
    }
    assert files[..|files|] == files;
  }

  // ----- what linking does to well-formed input -----

  predicate Covers(p: Patch, k: int) {
    2 + p.fixup.start * 2 <= k < 2 + (p.fixup.start + p.fixup.length) * 2
  }

  predicate Fits(code: string, p: Patch) {
    2 + (p.fixup.start + p.fixup.length) * 2 <= |code| && |p.address| == 2 + p.fixup.length * 2
  }

  predicate Disjoint(p: Patch, q: Patch) {
    p.fixup.start + p.fixup.length <= q.fixup.start || q.fixup.start + q.fixup.length <= p.fixup.start
  }

  /** Every patch lies inside the code and has an address of its own length; two patches are disjoint
      unless they are the same overwrite. */
  ghost predicate WellFormed(code: string, ps: seq<Patch>) {
    && (forall p :: p in ps ==> Fits(code, p))
    && (forall p, q :: p in ps && q in ps ==> p == q || Disjoint(p, q))
  }

  /** An in-range splice keeps the length exactly if the address has the length of the range. */
  lemma SpliceKeepsLengthExactlyIf(code: string, p: Patch)
    requires 2 + (p.fixup.start + p.fixup.length) * 2 <= |code| && |p.address| >= 2
    ensures |Splice(code, p)| == |code| <==> |p.address| == 2 + p.fixup.length * 2
  {
  }

  /** A range that starts behind the end puts the address at the end; one that only ends behind it cuts the
      code off. */
  lemma SpliceBeyondTheEnd(code: string, p: Patch)
    requires |p.address| >= 2
    ensures 2 + p.fixup.start * 2 >= |code| ==> Splice(code, p) == code + p.address[2..]
    ensures 2 + p.fixup.start * 2 <= |code| <= 2 + (p.fixup.start + p.fixup.length) * 2 ==>
              Splice(code, p) == code[..2 + p.fixup.start * 2] + p.address[2..]
  {
  }

  predicate AllFit(code: string, ps: seq<Patch>) {
    forall i :: 0 <= i < |ps| ==> Fits(code, ps[i])
  }

  predicate ApartFrom(p: Patch, ps: seq<Patch>) {
    forall i :: 0 <= i < |ps| ==> ps[i] == p || Disjoint(p, ps[i])
  }

  lemma SpliceAt(code: string, p: Patch, k: nat)
    requires Fits(code, p) && k < |code|
    ensures |Splice(code, p)| == |code|
    ensures Splice(code, p)[k] == if Covers(p, k) then p.address[k - p.fixup.start * 2] else code[k]
  {
  }

  lemma {:induction false} PatchedLength(code: string, ps: seq<Patch>)
    requires AllFit(code, ps)
    ensures |Apply(code, ps)| == |code|
  {
    if ps != [] {
      PatchedLength(code, ps[..|ps| - 1]);
      SpliceKeepsLengthExactlyIf(Apply(code, ps[..|ps| - 1]), ps[|ps| - 1]);
    }
  }

  lemma {:induction false} UncoveredAt(code: string, ps: seq<Patch>, k: nat)
    requires AllFit(code, ps) && k < |code|
    requires forall i :: 0 <= i < |ps| ==> !Covers(ps[i], k)
    ensures |Apply(code, ps)| == |code| && Apply(code, ps)[k] == code[k]
  {
    if ps != [] {
      var before, last := ps[..|ps| - 1], ps[|ps| - 1];
      UncoveredAt(code, before, k);
      SpliceAt(Apply(code, before), last, k);
    }
  }

  lemma {:induction false} CoveredAt(code: string, ps: seq<Patch>, k: nat, p: Patch)
    requires AllFit(code, ps) && ApartFrom(p, ps) && Fits(code, p)
    requires k < |code| && p in ps && Covers(p, k)
    ensures |Apply(code, ps)| == |code| && Apply(code, ps)[k] == p.address[k - p.fixup.start * 2]
  {
    var before, last := ps[..|ps| - 1], ps[|ps| - 1];
    if last == p {
      PatchedLength(code, before);
    } else {
      assert p in before && !Covers(last, k);
      CoveredAt(code, before, k, p);
    }
    SpliceAt(Apply(code, before), last, k);
  }

  /** The linked code, position by position: the address character of the patch that covers it, or else
      what was there. */
  lemma {:induction false} PatchedAt(code: string, ps: seq<Patch>, k: nat)
    requires WellFormed(code, ps) && k < |code|
    ensures |Apply(code, ps)| == |code|
    ensures forall p :: p in ps && Covers(p, k) ==> Apply(code, ps)[k] == p.address[k - p.fixup.start * 2]
    ensures (forall p :: p in ps ==> !Covers(p, k)) ==> Apply(code, ps)[k] == code[k]
  {
    assert AllFit(code, ps);
    if forall p :: p in ps ==> !Covers(p, k) {
      UncoveredAt(code, ps, k);
    } else {
      PatchedLength(code, ps);
      forall p | p in ps && Covers(p, k) ensures Apply(code, ps)[k] == p.address[k - p.fixup.start * 2] {
        CoveredAt(code, ps, k, p);
      }
    }
  }

  /** Only the set of overwrites matters: neither their order nor repetitions. */
  lemma {:induction false} OrderIndependent(code: string, ps: seq<Patch>, qs: seq<Patch>)
    requires WellFormed(code, ps)
    requires forall p :: p in ps <==> p in qs
    ensures Apply(code, ps) == Apply(code, qs)
  {
    PatchedLength(code, ps);
    PatchedLength(code, qs);
    forall k | 0 <= k < |code| ensures Apply(code, ps)[k] == Apply(code, qs)[k] {
      PatchedAt(code, ps, k);
      PatchedAt(code, qs, k);
      if p :| p in ps && Covers(p, k) {
        assert p in qs;
      }
    }
  }

  lemma {:induction false} FixupInFile(refs: seq<LibraryReferences>, addresses: map<string, string>, l: nat, x: nat)
    requires l < |refs| && x < |refs[l].fixups| && refs[l].library in addresses
    ensures Patch(refs[l].fixups[x], addresses[refs[l].library]) in FilePatches(refs, addresses)
  {
    var n := |refs| - 1;
    if l < n {
      FixupInFile(refs[..n], addresses, l, x);
    } else {
      var patches := LibraryPatches(refs[l].fixups, addresses[refs[l].library]);
      assert patches[x] in patches;
    }
  }

  lemma {:induction false} FixupIsPatch(files: seq<FileReferences>, addresses: map<string, string>, f: nat, l: nat,
                                        x: nat)
    requires f < |files| && l < |files[f].libraries| && x < |files[f].libraries[l].fixups|
    requires files[f].libraries[l].library in addresses
    ensures Patch(files[f].libraries[l].fixups[x], addresses[files[f].libraries[l].library]) in Patches(files, addresses)
  {
    var n := |files| - 1;
    if f < n {
      FixupIsPatch(files[..n], addresses, f, l, x);
    } else {
      FixupInFile(files[f].libraries, addresses, l, x);
    }
  }

  /** The range of the fixup spells the address without its prefix. */
  predicate HoldsAt(code: string, fixup: Fixup, address: string) {
    && 2 + (fixup.start + fixup.length) * 2 <= |code|
    && code[2 + fixup.start * 2..2 + (fixup.start + fixup.length) * 2] == Tail(address, 2)
  }

  lemma RangeFromCharacters(linked: string, fixup: Fixup, address: string)
    requires 2 + (fixup.start + fixup.length) * 2 <= |linked| && |address| == 2 + fixup.length * 2
    requires forall k :: 2 + fixup.start * 2 <= k < 2 + (fixup.start + fixup.length) * 2 ==>
               linked[k] == address[k - fixup.start * 2]
    ensures HoldsAt(linked, fixup, address)
  {
    var from := 2 + fixup.start * 2;
    var range := linked[from..from + fixup.length * 2];
    forall i | 0 <= i < |range| ensures range[i] == address[2..][i] {
      assert linked[from + i] == address[from + i - fixup.start * 2];
    }
  }

  lemma WellFormedFor(code: string, ps: seq<Patch>, p: Patch)
    requires WellFormed(code, ps) && p in ps
    ensures AllFit(code, ps) && ApartFrom(p, ps) && Fits(code, p)
  {
  }

  lemma {:induction false} PatchedRange(code: string, ps: seq<Patch>, p: Patch)
    requires AllFit(code, ps) && ApartFrom(p, ps) && Fits(code, p) && p in ps
    ensures |Apply(code, ps)| == |code|
    ensures HoldsAt(Apply(code, ps), p.fixup, p.address)
  {
    PatchedLength(code, ps);
    forall k | Covers(p, k) ensures Apply(code, ps)[k] == p.address[k - p.fixup.start * 2] {
      CoveredAt(code, ps, k, p);
    }
    RangeFromCharacters(Apply(code, ps), p.fixup, p.address);
  }

  /** Linking keeps the length and puts the address of a library that has one at each of its fixups. */
  lemma {:induction false} FixupHoldsAddress(code: string, files: seq<FileReferences>, addresses: map<string, string>,
                          f: nat, l: nat, x: nat)
    requires WellFormed(code, Patches(files, addresses))
    requires f < |files| && l < |files[f].libraries| && x < |files[f].libraries[l].fixups|
    requires files[f].libraries[l].library in addresses
    ensures |Link(code, files, addresses)| == |code|
    ensures HoldsAt(Link(code, files, addresses), files[f].libraries[l].fixups[x],
                    addresses[files[f].libraries[l].library])
  {
    var p := Patch(files[f].libraries[l].fixups[x], addresses[files[f].libraries[l].library]);
    FixupIsPatch(files, addresses, f, l, x);
    WellFormedFor(code, Patches(files, addresses), p);
    PatchedRange(code, Patches(files, addresses), p);
  }

  lemma {:induction false} FilePatchOrigin(refs: seq<LibraryReferences>, addresses: map<string, string>, p: Patch)
    requires p in FilePatches(refs, addresses)
    ensures exists l, x :: 0 <= l < |refs| && 0 <= x < |refs[l].fixups| &&
              refs[l].library in addresses && p == Patch(refs[l].fixups[x], addresses[refs[l].library])
  {
    var n := |refs| - 1;
    if p in FilePatches(refs[..n], addresses) {
      FilePatchOrigin(refs[..n], addresses, p);
      var l, x :| 0 <= l < |refs[..n]| && 0 <= x < |refs[..n][l].fixups| && refs[..n][l].library in addresses &&
        p == Patch(refs[..n][l].fixups[x], addresses[refs[..n][l].library]);
      assert refs[l].fixups[x] == refs[..n][l].fixups[x];
    } else {
      var x :| 0 <= x < |refs[n].fixups| && LibraryPatches(refs[n].fixups, addresses[refs[n].library])[x] == p;
      assert p == Patch(refs[n].fixups[x], addresses[refs[n].library]);
    }
  }

  /** A character that no fixup of a library with an address covers stays; so the placeholders of
      libraries without one survive when their fixups are apart from the others. */
  lemma {:induction false} UncoveredCharacterStays(code: string, files: seq<FileReferences>,
                                                 addresses: map<string, string>, k: nat)
    requires WellFormed(code, Patches(files, addresses)) && k < |code|
    requires forall f, l, x ::
               0 <= f < |files| && 0 <= l < |files[f].libraries| && 0 <= x < |files[f].libraries[l].fixups| &&
               files[f].libraries[l].library in addresses ==>
                 var fixup := files[f].libraries[l].fixups[x];
                 k < 2 + fixup.start * 2 || 2 + (fixup.start + fixup.length) * 2 <= k
    ensures |Link(code, files, addresses)| == |code|
    ensures Link(code, files, addresses)[k] == code[k]
  {
    forall p | p in Patches(files, addresses) ensures !Covers(p, k) {
      var f := PatchFile(files, addresses, p);
      FilePatchOrigin(files[f].libraries, addresses, p);
    }
    PatchedAt(code, Patches(files, addresses), k);
  }

  lemma {:induction false} PatchFile(files: seq<FileReferences>, addresses: map<string, string>,
                                     p: Patch) returns (f: nat)
    requires p in Patches(files, addresses)
    ensures f < |files| && p in FilePatches(files[f].libraries, addresses)
  {
    var n := |files| - 1;
    if p in Patches(files[..n], addresses) {
      f := PatchFile(files[..n], addresses, p);
    } else {
      f := n;
    }
  }

  /** Some file refers to the library at this fixup. */
  ghost predicate Refers(files: seq<FileReferences>, library: string, fixup: Fixup) {
    exists file, references :: file in files && references in file.libraries &&
      references.library == library && fixup in references.fixups
  }

  /** The overwrites are the fixups that the tables refer to, for libraries that have an address. */
  lemma {:induction false} PatchesExactly(files: seq<FileReferences>, addresses: map<string, string>, p: Patch)
    ensures p in Patches(files, addresses) <==>
            exists library :: library in addresses && p.address == addresses[library] && Refers(files, library, p.fixup)
  {
    if p in Patches(files, addresses) {
      var f := PatchFile(files, addresses, p);
      FilePatchOrigin(files[f].libraries, addresses, p);
      var l, x :| 0 <= l < |files[f].libraries| && 0 <= x < |files[f].libraries[l].fixups| &&
        files[f].libraries[l].library in addresses &&
        p == Patch(files[f].libraries[l].fixups[x], addresses[files[f].libraries[l].library]);
      assert files[f] in files && files[f].libraries[l] in files[f].libraries;
      assert Refers(files, files[f].libraries[l].library, p.fixup);
    }
    if library :| library in addresses && p.address == addresses[library] && Refers(files, library, p.fixup) {
      var file, references :| file in files && references in file.libraries &&
        references.library == library && p.fixup in references.fixups;
      var f :| 0 <= f < |files| && files[f] == file;
      var l :| 0 <= l < |file.libraries| && file.libraries[l] == references;
      var x :| 0 <= x < |references.fixups| && references.fixups[x] == p.fixup;
      FixupIsPatch(files, addresses, f, l, x);
    }
  }

  /** Tables that refer to the same libraries at the same fixups link alike, in whatever order and
      however often files, libraries and fixups are listed. */
  lemma {:induction false} LinkingIsOrderIndependent(code: string, files: seq<FileReferences>,
                                                     files': seq<FileReferences>,
                                  addresses: map<string, string>)
    requires WellFormed(code, Patches(files, addresses))
    requires forall library, fixup :: Refers(files, library, fixup) <==> Refers(files', library, fixup)
    ensures Link(code, files, addresses) == Link(code, files', addresses)
  {
    forall p ensures p in Patches(files, addresses) <==> p in Patches(files', addresses) {
      PatchesExactly(files, addresses, p);
      PatchesExactly(files', addresses, p);
    }
    OrderIndependent(code, Patches(files, addresses), Patches(files', addresses));
  }

  /** Whatever the first table lists, the second lists too, perhaps elsewhere and more than once. */
  ghost predicate ListedIn(files: seq<FileReferences>, files': seq<FileReferences>) {
    forall file :: file in files ==> exists file' :: file' in files' && LibrariesListedIn(file, file')
  }

  ghost predicate LibrariesListedIn(file: FileReferences, file': FileReferences) {
    forall r :: r in file.libraries ==> exists r' :: r' in file'.libraries && FixupsListedIn(r, r')
  }

  predicate FixupsListedIn(r: LibraryReferences, r': LibraryReferences) {
    r.library == r'.library && forall x :: x in r.fixups ==> x in r'.fixups
  }

  lemma ListedRefers(files: seq<FileReferences>, files': seq<FileReferences>, library: string, fixup: Fixup)
    requires ListedIn(files, files') && Refers(files, library, fixup)
    ensures Refers(files', library, fixup)
  {
    var file, r :| file in files && r in file.libraries && r.library == library && fixup in r.fixups;
    var file' :| file' in files' && LibrariesListedIn(file, file');
    var r' :| r' in file'.libraries && FixupsListedIn(r, r');
  }

  /** So files, the libraries of a file and the fixups of a library may come in any order and be
      repeated. */
  lemma {:induction false} RearrangedTablesLinkAlike(code: string, files: seq<FileReferences>,
                                                     files': seq<FileReferences>,
                                  addresses: map<string, string>)
    requires WellFormed(code, Patches(files, addresses)) && ListedIn(files, files') && ListedIn(files', files)
    ensures Link(code, files, addresses) == Link(code, files', addresses)
  {
    forall library, fixup ensures Refers(files, library, fixup) <==> Refers(files', library, fixup) {
      if Refers(files, library, fixup) {
        ListedRefers(files, files', library, fixup);
      } else if Refers(files', library, fixup) {
        ListedRefers(files', files, library, fixup);
      }
    }
    LinkingIsOrderIndependent(code, files, files', addresses);
  }

  lemma {:induction false} PermutedFilesLinkAlike(code: string, files: seq<FileReferences>, files': seq<FileReferences>,
                               addresses: map<string, string>)
    requires WellFormed(code, Patches(files, addresses)) && multiset(files) == multiset(files')
    ensures Link(code, files, addresses) == Link(code, files', addresses)
  {
    forall file ensures file in files <==> file in files' {
      assert file in multiset(files) <==> file in multiset(files');
    }
    assert forall file: FileReferences :: LibrariesListedIn(file, file);
    RearrangedTablesLinkAlike(code, files, files', addresses);
  }

  lemma {:induction false} LinkingIsIdempotent(code: string, files: seq<FileReferences>, addresses: map<string, string>)
    requires WellFormed(code, Patches(files, addresses))
    ensures Link(Link(code, files, addresses), files, addresses) == Link(code, files, addresses)
  {
    var ps := Patches(files, addresses);
    ApplyConcat(code, ps, ps);
    OrderIndependent(code, ps, ps + ps);
  }
}
