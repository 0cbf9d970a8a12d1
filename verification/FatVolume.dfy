/**
  A mounted FAT32 volume: the in-memory table and the device behind it. Every
  transfer may fail unless the device is reliable; a failed write may leave
  any mixture of old and new bytes in its target.
 */
module FatVolume {

  import opened Base
  import opened Slots
  import opened FatTable
  import opened ClusterData
  import opened Forest

  /** `disk'` after a failed write of `buffer` to `cluster`. */
  ghost predicate Torn(disk: Disk, cluster: nat, buffer: seq<Byte>, disk': Disk) {
    && disk'.Keys == disk.Keys
    && (forall c :: c in disk && c != cluster ==> disk'[c] == disk[c])
    && (cluster in disk ==>
          && |disk'[cluster]| == |disk[cluster]|
          && forall i :: 0 <= i < |disk[cluster]| ==>
               disk'[cluster][i] == disk[cluster][i] || (i < |buffer| && disk'[cluster][i] == buffer[i]))
  }

  class Volume {
    const clusterSize: nat
    const rootCluster: nat
    const reliable: bool
    const fat: FatBuffer

    /** Clusters in use outside the tree: bad ones, and one about to join it. */
    ghost var reserved: set<nat>

    /** Who owns which chain. */
    ghost var layout: Layout

    /** The data region, and the copies of the table, on the device. */
    var disk: Disk
    var copies: seq<Table>

    constructor (clusterSize: nat, rootCluster: nat, reliable: bool, fat: FatBuffer, disk: Disk, copies: seq<Table>,
                 ghost layout: Layout, ghost reserved: set<nat>)
      ensures this.clusterSize == clusterSize && this.rootCluster == rootCluster && this.reliable == reliable
      ensures this.fat == fat && this.disk == disk && this.copies == copies
      ensures this.layout == layout && this.reserved == reserved
    {
      this.layout, this.reserved := layout, reserved;
      this.clusterSize, this.rootCluster, this.reliable := clusterSize, rootCluster, reliable;
      this.fat, this.disk, this.copies := fat, disk, copies;
    }

    ghost function Table(): (t: Table)
      reads fat.words
      ensures |t| == fat.words.Length
    {
      fat.words[..]
    }

    /** The table copies on the device agree with the table in memory. */
    ghost predicate Synced()
      reads this, fat.words
    {
      forall i :: 0 <= i < |copies| ==> copies[i] == Table()
    }

    method ReadCluster(cluster: nat) returns (r: Option<seq<Byte>>)
      ensures r.Some? ==> cluster in disk && r.value == disk[cluster]
      ensures reliable && cluster in disk ==> r.Some?
    {
      var failed: bool := *;
      if cluster !in disk || (failed && !reliable) {
        return None;
      }
      return Some(disk[cluster]);
    }

    method WriteCluster(cluster: nat, buffer: seq<Byte>) returns (ok: bool)
      requires cluster in disk ==> |buffer| == |disk[cluster]|
      modifies this`disk
      ensures reliable && cluster in old(disk) ==> ok
      ensures ok ==> cluster in old(disk) && disk == old(disk)[cluster := buffer]
      ensures !ok ==> Torn(old(disk), cluster, buffer, disk)
    {
      if cluster !in disk {
        return false;
      }
      var failed: bool := *;
      if failed && !reliable {
        var sent: nat :| sent <= |buffer|;
        disk := disk[cluster := buffer[..sent] + disk[cluster][sent..]];
        return false;
      }
      disk := disk[cluster := buffer];
      return true;
    }

    /** Writes the table to every copy on the device, in order. */
    method PersistFat() returns (ok: bool)
      modifies this`copies
      ensures |copies| == |old(copies)|
      ensures ok ==> Synced()
      ensures reliable ==> ok
    {
      var i := 0;
      while i < |copies|
        invariant 0 <= i <= |copies| == |old(copies)|
        invariant forall j :: 0 <= j < i ==> copies[j] == Table()
      {
        var failed: bool := *;
        if failed && !reliable {
          var torn: Table := *;
          copies := copies[i := torn];
          return false;
        }
        copies := copies[i := fat.words[..]];
        i := i + 1;
      }
      return true;
    }
  }
}
