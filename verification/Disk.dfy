/** The 4 MiB in-memory disk of src/external/external-inserter.c and the cluster wrappers of
    src/filesystem/fat32.c over it. */
module Disk {
  import opened Memory
  import opened DirEntry

  const IMAGE_CLUSTERS := 2048
  const IMAGE_SIZE := IMAGE_CLUSTERS * CLUSTER_SIZE

  type Image = b: Bytes | |b| == IMAGE_SIZE witness seq(IMAGE_SIZE, _ => 0)

  function ClusterAt(image: Image, n: nat): Cluster
    requires n < IMAGE_CLUSTERS
  {
    image[CLUSTER_SIZE * n..CLUSTER_SIZE * n + CLUSTER_SIZE]
  }

  /** The image as the driver sees it: cluster by cluster. */
  function ClustersOf(image: Image): (cs: seq<Cluster>)
    ensures |cs| == IMAGE_CLUSTERS
  {
    seq(IMAGE_CLUSTERS, n requires 0 <= n < IMAGE_CLUSTERS => ClusterAt(image, n))
  }

  lemma ClustersOfOverwrite(image: Image, n: nat, at: nat, b: Bytes)
    requires n < IMAGE_CLUSTERS && at + |b| <= CLUSTER_SIZE
    ensures ClustersOf(Overwrite(image, CLUSTER_SIZE * n + at, b))
         == ClustersOf(image)[n := Overwrite(ClusterAt(image, n), at, b)]
  {
    var r: Image := Overwrite(image, CLUSTER_SIZE * n + at, b);
    var c := Overwrite(ClusterAt(image, n), at, b);
    forall k | 0 <= k < IMAGE_CLUSTERS
      ensures ClusterAt(r, k) == ClustersOf(image)[n := c][k]
    {
      ClusterAtOverwrite(image, n, at, b, k);
    }
  }

  lemma ClusterAtOverwrite(image: Image, n: nat, at: nat, b: Bytes, k: nat)
    requires n < IMAGE_CLUSTERS && at + |b| <= CLUSTER_SIZE && k < IMAGE_CLUSTERS
    ensures ClusterAt(Overwrite(image, CLUSTER_SIZE * n + at, b), k)
         == if k == n then Overwrite(ClusterAt(image, n), at, b) else ClusterAt(image, k)
  {
    var r: Image := Overwrite(image, CLUSTER_SIZE * n + at, b);
    if k < n {
      assert CLUSTER_SIZE * k + CLUSTER_SIZE <= CLUSTER_SIZE * n;
    } else if n < k {
      assert CLUSTER_SIZE * n + CLUSTER_SIZE <= CLUSTER_SIZE * k;
    }
    assert forall j :: 0 <= j < CLUSTER_SIZE ==>
      ClusterAt(r, k)[j] == r[CLUSTER_SIZE * k + j] && ClusterAt(image, k)[j] == image[CLUSTER_SIZE * k + j];
  }

  // ----- Runs of clusters

  /** The k-th whole cluster of a transfer buffer. */
  function Piece(buf: Bytes, k: nat): Cluster
    requires CLUSTER_SIZE * (k + 1) <= |buf|
  {
    buf[CLUSTER_SIZE * k..CLUSTER_SIZE * k + CLUSTER_SIZE]
  }

  function PutDataAt(disk: seq<Cluster>, s: nat, n: nat, buf: Bytes, k: nat): Cluster
    requires k < |disk| && s + n <= |disk| && CLUSTER_SIZE * n <= |buf|
  {
    if s <= k < s + n then Piece(buf, k - s) else disk[k]
  }

  function PutData(disk: seq<Cluster>, s: nat, n: nat, buf: Bytes): (r: seq<Cluster>)
    requires s + n <= |disk| && CLUSTER_SIZE * n <= |buf|
    ensures |r| == |disk|
  {
    seq(|disk|, k requires 0 <= k < |disk| => PutDataAt(disk, s, n, buf, k))
  }

  /** Clusters s to s+n-1 back to back. */
  function GetData(disk: seq<Cluster>, s: nat, n: nat): (b: Bytes)
    requires s + n <= |disk|
    ensures |b| == CLUSTER_SIZE * n
  {
    if n == 0 then [] else GetData(disk, s, n - 1) + disk[s + n - 1]
  }

  /** The clusters that a request for `count` moves: the number of blocks is an 8-bit parameter. */
  function Moved(count: byte): (n: nat)
    ensures n < 64 && 4 * n == ClusterToLba(count) % 0x100
  {
    ClusterToLba(count) % 0x100 / 4
  }

  lemma MovedIs(count: byte)
    ensures Moved(count) == count % 64
  {
    var q, r := count / 64, count % 64;
    assert ClusterToLba(count) == 0x100 * q + 4 * r;
  }

  lemma {:induction false} GetDataOf(image: Image, n: nat, m: nat)
    requires n + m <= IMAGE_CLUSTERS
    ensures GetData(ClustersOf(image), n, m) == image[CLUSTER_SIZE * n..CLUSTER_SIZE * (n + m)]
  {
    if m > 0 {
      GetDataOf(image, n, m - 1);
      assert ClustersOf(image)[n + m - 1] == ClusterAt(image, n + m - 1);
      SliceMore(image, CLUSTER_SIZE * n, CLUSTER_SIZE * (n + m - 1), CLUSTER_SIZE * (n + m));
    }
  }

  lemma OneOfData(disk: seq<Cluster>, s: nat)
    requires s < |disk|
    ensures GetData(disk, s, 1) == disk[s]
  {
    assert GetData(disk, s, 0) + disk[s] == disk[s];
  }

  lemma PutDataOf(image: Image, n: nat, m: nat, b: Bytes)
    requires n + m <= IMAGE_CLUSTERS && CLUSTER_SIZE * m <= |b|
    ensures ClustersOf(Overwrite(image, CLUSTER_SIZE * n, b[..CLUSTER_SIZE * m]))
         == PutData(ClustersOf(image), n, m, b)
  {
    var r: Image := Overwrite(image, CLUSTER_SIZE * n, b[..CLUSTER_SIZE * m]);
    forall k | 0 <= k < IMAGE_CLUSTERS
      ensures ClusterAt(r, k) == PutDataAt(ClustersOf(image), n, m, b, k)
    {
      PutClusterOf(image, n, m, b, k);
    }
  }

  lemma PutClusterOf(image: Image, n: nat, m: nat, b: Bytes, k: nat)
    requires n + m <= IMAGE_CLUSTERS && CLUSTER_SIZE * m <= |b| && k < IMAGE_CLUSTERS
    ensures ClusterAt(Overwrite(image, CLUSTER_SIZE * n, b[..CLUSTER_SIZE * m]), k)
         == PutDataAt(ClustersOf(image), n, m, b, k)
  {
    var r: Image := Overwrite(image, CLUSTER_SIZE * n, b[..CLUSTER_SIZE * m]);
    if k < n {
      assert CLUSTER_SIZE * k + CLUSTER_SIZE <= CLUSTER_SIZE * n;
    } else if k < n + m {
      assert CLUSTER_SIZE * (k - n) + CLUSTER_SIZE <= CLUSTER_SIZE * m;
    } else {
      assert CLUSTER_SIZE * (n + m) <= CLUSTER_SIZE * k;
    }
    assert forall j :: 0 <= j < CLUSTER_SIZE ==>
      ClusterAt(r, k)[j] == r[CLUSTER_SIZE * k + j] && ClusterAt(image, k)[j] == image[CLUSTER_SIZE * k + j];
  }

  /** Copying block i of a run of blocks onto the i blocks before it. */
  lemma BlockStep(was: Bytes, at: nat, src: Bytes, lba: nat, i: nat)
    requires BLOCK_SIZE * (lba + i + 1) <= |src| && at + BLOCK_SIZE * (i + 1) <= |was|
    ensures var from := BLOCK_SIZE * lba;
            var to := from + BLOCK_SIZE * i;
            Overwrite(Overwrite(was, at, src[from..to]), at + BLOCK_SIZE * i, src[to..to + BLOCK_SIZE][..BLOCK_SIZE])
            == Overwrite(was, at, src[from..to + BLOCK_SIZE])
  {
    var from := BLOCK_SIZE * lba;
    var to := from + BLOCK_SIZE * i;
    var block := src[to..to + BLOCK_SIZE];
    assert block[..BLOCK_SIZE] == block;
    OverwriteMore(was, at, src[from..to], block);
    SliceMore(src, from, to, to + BLOCK_SIZE);
  }

  class BlockDevice {
    const image: array<byte>

    ghost predicate Valid() { image.Length == IMAGE_SIZE }

    constructor (image: array<byte>)
      requires image.Length == IMAGE_SIZE
      ensures Valid() && this.image == image
    {
      this.image := image;
    }

    ghost function Clusters(): (cs: seq<Cluster>)
      requires Valid()
      reads image
      ensures |cs| == IMAGE_CLUSTERS
    {
      ClustersOf(image[..])
    }

    method ReadBlocks(ptr: array<byte>, at: nat, lba: nat, blockCount: byte)
      requires Valid() && ptr != image
      requires at + BLOCK_SIZE * blockCount <= ptr.Length
      requires BLOCK_SIZE * (lba + blockCount) <= IMAGE_SIZE
      modifies ptr
      ensures ptr[..] == Overwrite(old(ptr[..]), at, image[BLOCK_SIZE * lba..BLOCK_SIZE * (lba + blockCount)])
    {
      ghost var was, src := ptr[..], image[..];
      for i := 0 to blockCount
        invariant ptr[..] == Overwrite(was, at, src[BLOCK_SIZE * lba..BLOCK_SIZE * lba + BLOCK_SIZE * i])
      {
        var from := BLOCK_SIZE * lba + BLOCK_SIZE * i;
        var block := image[from..from + BLOCK_SIZE];
        BlockStep(was, at, src, lba, i);
        MemCpy(ptr, at + BLOCK_SIZE * i, block, BLOCK_SIZE);
      }
    }

    method WriteBlocks(ptr: Bytes, lba: nat, blockCount: byte)
      requires Valid()
      requires BLOCK_SIZE * blockCount <= |ptr|
      requires BLOCK_SIZE * (lba + blockCount) <= IMAGE_SIZE
      modifies image
      ensures image[..] == Overwrite(old(image[..]), BLOCK_SIZE * lba, ptr[..BLOCK_SIZE * blockCount])
    {
      ghost var was := image[..];
      for i := 0 to blockCount
        invariant image[..] == Overwrite(was, BLOCK_SIZE * lba, ptr[..BLOCK_SIZE * i])
      {
        var from := BLOCK_SIZE * i;
        var block := ptr[from..from + BLOCK_SIZE];
        BlockStep(was, BLOCK_SIZE * lba, ptr, 0, i);
        MemCpy(image, BLOCK_SIZE * (lba + i), block, BLOCK_SIZE);
      }
    }

    /** read_clusters. */
    method ReadClusters(ptr: array<byte>, at: nat, n: nat, count: byte)
      requires Valid() && ptr != image && n + Moved(count) <= IMAGE_CLUSTERS
      requires at + CLUSTER_SIZE * Moved(count) <= ptr.Length
      modifies ptr
      ensures ptr[..] == Overwrite(old(ptr[..]), at, GetData(Clusters(), n, Moved(count)))
    {
      GetDataOf(image[..], n, Moved(count));
      ReadBlocks(ptr, at, ClusterToLba(n), ClusterToLba(count) % 0x100);
    }

    method ReadCluster(ptr: array<byte>, at: nat, n: nat)
      requires Valid() && ptr != image && n < IMAGE_CLUSTERS && at + CLUSTER_SIZE <= ptr.Length
      modifies ptr
      ensures ptr[..] == Overwrite(old(ptr[..]), at, Clusters()[n])
    {
      OneOfData(Clusters(), n);
      assert Moved(1) == 1;
      ReadClusters(ptr, at, n, 1);
      assert GetData(Clusters(), n, Moved(1)) == Clusters()[n];
    }

    /** write_clusters. */
    method WriteClusters(ptr: Bytes, n: nat, count: byte)
      requires Valid() && n + Moved(count) <= IMAGE_CLUSTERS && CLUSTER_SIZE * Moved(count) <= |ptr|
      modifies image
      ensures Clusters() == PutData(old(Clusters()), n, Moved(count), ptr)
    {
      PutDataOf(image[..], n, Moved(count), ptr);
      WriteBlocks(ptr, ClusterToLba(n), ClusterToLba(count) % 0x100);
    }

    method WriteCluster(ptr: Bytes, n: nat)
      requires Valid() && n < IMAGE_CLUSTERS && CLUSTER_SIZE <= |ptr|
      modifies image
      ensures Clusters() == old(Clusters())[n := ptr[..CLUSTER_SIZE]]
    {
      WriteClusters(ptr, n, 1);
    }

    /** One block written at the start of the disk. */
    method WriteBootBlock(ptr: Bytes)
      requires Valid() && |ptr| == BLOCK_SIZE
      modifies image
      ensures Clusters() == old(Clusters())[0 := Overwrite(old(Clusters())[0], 0, ptr)]
    {
      ghost var was: Image := image[..];
      WriteBlocks(ptr, 0, 1);
      assert ptr[..BLOCK_SIZE] == ptr;
      ClustersOfOverwrite(was, 0, 0, ptr);
    }
  }

  function ClusterToLba(cluster: nat): nat { cluster * 4 }
}
