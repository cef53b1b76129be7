/** The three file operations that the models need, on a file's content. */
module Files {

  type Bytes = seq<bv8>

  datatype Option<+T> = None | Some(value: T)

  function Zeros(n: nat): (z: Bytes)
    ensures |z| == n && forall i | 0 <= i < n :: z[i] == 0
  {
    seq(n, _ => 0)
  }

  /** ftruncate: cut, or extend with zero bytes. */
  function Truncate(file: Bytes, size: nat): (r: Bytes)
    ensures |r| == size
    ensures forall i | 0 <= i < size :: r[i] == if i < |file| then file[i] else 0
  {
    if size <= |file| then file[..size] else file + Zeros(size - |file|)
  }

  /** pwrite: a write past the end extends the file, filling any hole with zero bytes. */
  function WriteAt(file: Bytes, offset: nat, data: Bytes): (r: Bytes)
    ensures data != [] ==> |r| == if |file| < offset + |data| then offset + |data| else |file|
    ensures data == [] ==> r == file
    ensures data != [] ==> forall i | 0 <= i < |data| :: r[offset + i] == data[i]
    ensures forall i | 0 <= i < |file| && !(offset <= i < offset + |data|) :: i < |r| && r[i] == file[i]
    ensures forall i | |file| <= i < offset && i < |r| :: r[i] == 0
  {
    if data == [] then file
    else
      var room := if |file| < offset + |data| then Truncate(file, offset + |data|) else file;
      room[..offset] + data + room[offset + |data|..]
  }
}
