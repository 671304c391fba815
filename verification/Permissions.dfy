/** Permissions that users of a block node need and share, and the default way a parent
    node passes them on to its children (`qemu/block.c`, `bdrv_default_perms`). */
module Permissions {

  /** The four bits of BLK_PERM_ALL. */
  datatype Perm = ConsistentRead | Write | WriteUnchanged | Resize

  type PermSet = set<Perm>

  const ALL: PermSet := {ConsistentRead, Write, WriteUnchanged, Resize}

  /** DEFAULT_PERM_PASSTHROUGH and DEFAULT_PERM_UNCHANGED. */
  const PASSTHROUGH: PermSet := {ConsistentRead, Write, WriteUnchanged, Resize}
  const UNCHANGED: PermSet := ALL - PASSTHROUGH

  lemma AllPerms(p: Perm)
    ensures p in ALL
  {
    match p case ConsistentRead => case Write => case WriteUnchanged => case Resize =>
  }

  /** `perm` is what a user may do, `shared` what it lets the other users do. */
  datatype Grant = Grant(perm: PermSet, shared: PermSet)

  /** What a child is used for.  `Metadata(true)` is a child that holds data as well. */
  datatype Role = Filtered | Cow | Metadata(withData: bool) | Data

  /** The facts about a parent node that the default permissions look at. */
  datatype NodeFlags = NodeFlags(writable: bool, noIo: bool, inactive: bool)

  function FilterPerms(g: Grant): Grant
  {
    Grant(g.perm * PASSTHROUGH, (g.shared * PASSTHROUGH) + UNCHANGED)
  }

  function CowPerms(flags: NodeFlags, g: Grant): Grant
  {
    var shared := (if Write in g.shared then {Write, Resize} else {}) + {ConsistentRead, WriteUnchanged};
    Grant(g.perm * {ConsistentRead}, if flags.inactive then shared + {Write, Resize} else shared)
  }

  function MetadataPerms(flags: NodeFlags, g: Grant): Grant
  {
    Grant(g.perm + (if flags.writable then {Write, Resize} else {})
                 + (if flags.noIo then {} else {ConsistentRead}),
          g.shared - {Write, Resize})
  }

  function DataPerms(g: Grant): Grant
  {
    var perm := if WriteUnchanged in g.perm then g.perm + {Write} else g.perm;
    Grant(if Write in perm then perm + {Resize} else perm, g.shared - {Resize})
  }

  function StoragePerms(flags: NodeFlags, metadata: bool, data: bool, g: Grant): Grant
  {
    var g0 := FilterPerms(g);
    var g1 := if metadata then MetadataPerms(flags, g0) else g0;
    var g2 := if data then DataPerms(g1) else g1;
    if flags.inactive then g2.(shared := g2.shared + {Write, Resize}) else g2
  }

  function DefaultPerms(flags: NodeFlags, role: Role, g: Grant): Grant
  {
    match role
    case Filtered => FilterPerms(g)
    case Cow => CowPerms(flags, g)
    case Metadata(withData) => StoragePerms(flags, true, withData, g)
    case Data => StoragePerms(flags, false, true, g)
  }

  predicate HoldsMetadata(role: Role)
  {
    role.Metadata?
  }

  predicate HoldsData(role: Role)
  {
    role.Data? || (role.Metadata? && role.withData)
  }

  /** What a parent needs from a child, bit by bit: filters pass everything on, a backing file is
      only read, metadata is always read and written if the node is, data that is copied or written
      is written and may grow. */
  lemma DefaultNeeds(flags: NodeFlags, role: Role, g: Grant)
    ensures var need := DefaultPerms(flags, role, g).perm;
            var meta, data := HoldsMetadata(role), HoldsData(role);
            && (ConsistentRead in need <==> ConsistentRead in g.perm || (meta && !flags.noIo))
            && (WriteUnchanged in need <==> WriteUnchanged in g.perm && !role.Cow?)
            && (Write in need <==>
                  !role.Cow? && (Write in g.perm || (meta && flags.writable) || (data && WriteUnchanged in g.perm)))
            && (Resize in need <==>
                  && !role.Cow?
                  && (|| Resize in g.perm || (meta && flags.writable)
                      || (data && (Write in g.perm || WriteUnchanged in g.perm))))
  {}

  /** What a parent shares of a child, bit by bit: a backing file may change if the users of the
      parent can deal with it, metadata may not be written, what holds metadata or data may not
      be resized; an inactive parent does not mind either. */
  lemma DefaultShares(flags: NodeFlags, role: Role, g: Grant)
    ensures var share := DefaultPerms(flags, role, g).shared;
            && (ConsistentRead in share <==> ConsistentRead in g.shared || role.Cow?)
            && (WriteUnchanged in share <==> WriteUnchanged in g.shared || role.Cow?)
            && (Write in share <==>
                  (Write in g.shared && !HoldsMetadata(role)) || (flags.inactive && !role.Filtered?))
            && (Resize in share <==>
                  match role
                  case Filtered => Resize in g.shared
                  case Cow => Write in g.shared || flags.inactive
                  case _ => flags.inactive)
  {}

  /** `a` asks for no more and shares no less than `b`. */
  predicate Looser(a: Grant, b: Grant)
  {
    a.perm <= b.perm && b.shared <= a.shared
  }

  /** A parent that gets looser users passes looser permissions on. */
  lemma DefaultPermsMonotone(flags: NodeFlags, role: Role, a: Grant, b: Grant)
    requires Looser(a, b)
    ensures Looser(DefaultPerms(flags, role, a), DefaultPerms(flags, role, b))
  {}
}
