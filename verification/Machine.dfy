/** What the storage code sees of the machine: a disk of sectors whose every request may be
    refused, a flush that may be refused, and a kernel heap that may be exhausted.  A refused
    write changes nothing; a performed write replaces one sector in a single step. */
module Machines {
  import opened Bytes

  type Image = seq<Sector>

  class Machine {
    var image: Image
    /** How many requests the device or the heap refused so far. */
    var faults: nat
    /** Every image the disk went through, the present one last. */
    ghost var history: seq<Image>

    constructor (image: Image)
      ensures this.image == image && faults == 0 && history == [image]
    {
      this.image := image;
      faults := 0;
      history := [image];
    }

    method Read(lba: nat) returns (ok: bool, data: Sector)
      modifies this`faults
      ensures ok ==> lba < |image| && data == image[lba] && faults == old(faults)
      ensures !ok ==> lba >= |image| || faults > old(faults)
      ensures faults >= old(faults)
    {
      ok, data := *, [];
      if lba >= |image| {
        ok := false;
      } else if ok {
        data := image[lba];
      } else {
        faults := faults + 1;
      }
    }

    method Write(lba: nat, data: Sector) returns (ok: bool)
      modifies this
      ensures ok ==> lba < |old(image)| && image == old(image)[lba := data]
      ensures ok ==> faults == old(faults) && history == old(history) + [image]
      ensures !ok ==> image == old(image) && history == old(history)
      ensures !ok ==> lba >= |image| || faults > old(faults)
      ensures faults >= old(faults)
    {
      ok := *;
      if lba >= |image| {
        ok := false;
      } else if ok {
        image := image[lba := data];
        history := history + [image];
      } else {
        faults := faults + 1;
      }
    }

    method Flush() returns (ok: bool)
      modifies this`faults
      ensures ok ==> faults == old(faults)
      ensures !ok ==> faults > old(faults)
    {
      ok := *;
      if !ok {
        faults := faults + 1;
      }
    }

    /** kmalloc of a non-zero size. */
    method Allocate() returns (ok: bool)
      modifies this`faults
      ensures ok ==> faults == old(faults)
      ensures !ok ==> faults > old(faults)
    {
      ok := *;
      if !ok {
        faults := faults + 1;
      }
    }
  }
}
